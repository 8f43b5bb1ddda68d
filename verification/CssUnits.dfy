/** Splitting CSS text into units: cuts at the top level, outside strings and comments. */
module CssUnits {
  import opened Texts

  /** What the scanner knows after a prefix of the text. `Slash` and `Star` await the second character of a delimiter. */
  datatype Lex =
    | Base(depth: nat)
    | Slash(depth: nat)
    | Str(quote: char, depth: nat)
    | Esc(quote: char, depth: nat)
    | Comment(depth: nat)
    | Star(depth: nat)

  const START: Lex := Base(0)

  function Next(st: Lex, c: char): Lex {
    match st
    case Base(d) => NextBase(d, c)
    case Slash(d) => if c == '*' then Comment(d) else NextBase(d, c)
    case Str(q, d) => if c == '\\' then Esc(q, d) else if c == q then Base(d) else st
    case Esc(q, d) => Str(q, d)
    case Comment(d) => if c == '*' then Star(d) else st
    case Star(d) => if c == '/' then Base(d) else if c == '*' then st else Comment(d)
  }

  function NextBase(d: nat, c: char): Lex {
    if c == '/' then Slash(d)
    else if c == '\'' || c == '"' then Str(c, d)
    else if c == '{' then Base(d + 1)
    else if c == '}' then Base(if d > 0 then d - 1 else 0)
    else Base(d)
  }

  /** The character ends a unit. */
  predicate Cuts(st: Lex, c: char) {
    (st.Base? || st.Slash?) && ((c == '}' && st.depth <= 1) || (c == ';' && st.depth == 0))
  }

  /** The raw slices between cuts, when `piece` has been read since the last cut; the last slice is the tail. */
  function Pieces(st: Lex, piece: string, rest: string): (ps: seq<string>)
    ensures ps != []
    decreases |rest|
  {
    if rest == "" then [piece]
    else if Cuts(st, rest[0]) then [piece + [rest[0]]] + Pieces(START, "", rest[1..])
    else Pieces(Next(st, rest[0]), piece + [rest[0]], rest[1..])
  }

  /** What a raw slice contributes. */
  function Unit(piece: string): seq<string> {
    if TrimSpace(piece) == "" then [] else [TrimSpace(piece) + "\n"]
  }

  function Emit(pieces: seq<string>): seq<string> {
    if pieces == [] then [] else Unit(pieces[0]) + Emit(pieces[1..])
  }

  function Units(css: string): seq<string> {
    Emit(Pieces(START, "", css))
  }

  // ---------------------------------------------------------------- the loop

  /** The loop variables stand for the scanner state after `css[..i]`. */
  ghost predicate Stands(st: Lex, css: string, i: nat, depth: nat, quote: char, comment: bool) {
    if i > |css| then true
    else if comment then quote == '\0' && (st == Comment(depth) || (st == Star(depth) && (i < |css| ==> css[i] != '/')))
    else if quote != '\0' then quote in {'\'', '"'} && st == Str(quote, depth)
    else st == Base(depth) || (st == Slash(depth) && (i < |css| ==> css[i] != '*'))
  }

  /** After `css[..i]`, `done` slices are finished and the current one began at `start`. */
  ghost predicate Reached(css: string, done: seq<string>, st: Lex, start: nat, i: nat) {
    && start <= |css| && start <= i
    && Pieces(START, "", css) ==
         done + (if i <= |css| then Pieces(st, css[start..i], css[i..]) else [css[start..]])
  }

  /** The state behind the one or two characters from `at` through `i`. */
  function Onward(st: Lex, css: string, at: nat, i: nat): Lex
    requires at < |css|
  {
    if at < i < |css| then Next(Next(st, css[at]), css[i]) else Next(st, css[at])
  }

  method SplitCSSUnits(css: string) returns (units: seq<string>)
    ensures units == Units(css)
  {
    units := [];
    var start, depth: nat, quote, comment := 0, 0, '\0', false;
    ghost var st := START;
    ghost var done: seq<string> := [];
    var i := 0;
    while i < |css|
      invariant 0 <= i <= |css| + 1
      invariant Stands(st, css, i, depth, quote, comment)
      invariant units == Emit(done)
      invariant Reached(css, done, st, start, i)
    {
      var c := css[i];
      ghost var at := i;
      if comment {
        if c == '*' && i + 1 < |css| && css[i + 1] == '/' {
          comment := false;
          i := i + 1;
        }
      } else if quote != '\0' {
        if c == '\\' {
          i := i + 1;
        } else if c == quote {
          quote := '\0';
        }
      } else if c == '/' && i + 1 < |css| && css[i + 1] == '*' {
        comment := true;
        i := i + 1;
      } else if c == '\'' || c == '"' {
        quote := c;
      } else {
        var cut := false;
        if c == '{' {
          depth := depth + 1;
        } else if c == '}' {
          if depth > 0 {
            depth := depth - 1;
          }
          cut := depth == 0;
        } else if c == ';' {
          cut := depth == 0;
        }
        if cut {
          units := AddUnit(units, css[start..i + 1], done);
          ReachedCut(css, done, st, start, i);
          done := done + [css[start..i + 1]];
          st := START;
          start := i + 1;
          i := i + 1;
          continue;
        }
      }
      ReachedOn(css, done, st, start, at, i);
      st := Onward(st, css, at, i);
      i := i + 1;
    }
    ReachedEnd(css, done, st, start, i);
    units := AddUnit(units, css[start..], done);
  }

  method AddUnit(units: seq<string>, piece: string, ghost done: seq<string>) returns (more: seq<string>)
    requires units == Emit(done)
    ensures more == Emit(done + [piece])
  {
    EmitSnoc(done, piece);
    more := units;
    var unit := TrimSpace(piece);
    if unit != "" {
      more := more + [unit + "\n"];
    }
  }

  lemma ReachedNext(css: string, done: seq<string>, st: Lex, start: nat, i: nat)
    requires Reached(css, done, st, start, i) && i <= |css|
    requires i < |css| ==> !Cuts(st, css[i])
    ensures Reached(css, done, if i < |css| then Next(st, css[i]) else st, start, i + 1)
  {
    if i < |css| {
      PiecesStep(st, css, start, i);
    } else {
      assert css[start..i] == css[start..];
    }
  }

  lemma ReachedOn(css: string, done: seq<string>, st: Lex, start: nat, at: nat, i: nat)
    requires Reached(css, done, st, start, at) && at < |css| && at <= i <= at + 1
    requires !Cuts(st, css[at]) && (at < i < |css| ==> !Cuts(Next(st, css[at]), css[i]))
    ensures Reached(css, done, Onward(st, css, at, i), start, i + 1)
  {
    ReachedNext(css, done, st, start, at);
    if i == at + 1 {
      ReachedNext(css, done, Next(st, css[at]), start, i);
    }
  }

  lemma ReachedCut(css: string, done: seq<string>, st: Lex, start: nat, i: nat)
    requires Reached(css, done, st, start, i) && i < |css| && Cuts(st, css[i])
    ensures Reached(css, done + [css[start..i + 1]], START, i + 1, i + 1)
  {
    PiecesStep(st, css, start, i);
    assert css[i + 1..i + 1] == "";
  }

  lemma ReachedEnd(css: string, done: seq<string>, st: Lex, start: nat, i: nat)
    requires Reached(css, done, st, start, i) && i >= |css|
    ensures Pieces(START, "", css) == done + [css[start..]]
  {
    if i == |css| {
      assert css[start..i] == css[start..];
    }
  }

  lemma PiecesStep(st: Lex, css: string, start: nat, i: nat)
    requires start <= i < |css|
    ensures Pieces(st, css[start..i], css[i..]) ==
            if Cuts(st, css[i]) then [css[start..i + 1]] + Pieces(START, "", css[i + 1..])
            else Pieces(Next(st, css[i]), css[start..i + 1], css[i + 1..])
  {
    assert css[i..][0] == css[i] && css[i..][1..] == css[i + 1..];
    assert css[start..i] + [css[i]] == css[start..i + 1];
  }

  lemma {:induction false} EmitConcat(a: seq<string>, b: seq<string>)
    ensures Emit(a + b) == Emit(a) + Emit(b)
  {
    if a == [] {
      assert a + b == b;
    } else {
      EmitConcat(a[1..], b);
      Associative(Unit(a[0]), Emit(a[1..]), Emit(b));
      assert (a + b)[0] == a[0] && (a + b)[1..] == a[1..] + b;
    }
  }

  lemma EmitSnoc(ps: seq<string>, p: string)
    ensures Emit(ps + [p]) == Emit(ps) + Unit(p)
  {
    EmitConcat(ps, [p]);
    assert Emit([p]) == Unit(p) + Emit([]);
  }

  // ---------------------------------------------------------------- slices

  /** Read from `st`, the text has a cut at its last character and nowhere before. */
  ghost predicate Closed(st: Lex, s: string)
    decreases |s|
  {
    s != "" && if |s| == 1 then Cuts(st, s[0]) else !Cuts(st, s[0]) && Closed(Next(st, s[0]), s[1..])
  }

  /** Read from `st`, the text has no cut. */
  ghost predicate Open(st: Lex, s: string)
    decreases |s|
  {
    s == "" || (!Cuts(st, s[0]) && Open(Next(st, s[0]), s[1..]))
  }

  ghost predicate Shaped(pieces: seq<string>) {
    && pieces != []
    && (forall k :: 0 <= k < |pieces| - 1 ==> Closed(START, pieces[k]))
    && Open(START, pieces[|pieces| - 1])
  }

  lemma {:induction false} PiecesFlatten(st: Lex, piece: string, rest: string)
    ensures Flatten(Pieces(st, piece, rest)) == piece + rest
    decreases |rest|
  {
    if rest == "" {
      FlattenOne(piece);
    } else {
      var c, more := rest[0], rest[1..];
      Associative(piece, [c], more);
      assert [c] + more == rest;
      if Cuts(st, c) {
        PiecesFlatten(START, "", more);
        FlattenAppend([piece + [c]], Pieces(START, "", more));
        FlattenOne(piece + [c]);
      } else {
        PiecesFlatten(Next(st, c), piece + [c], more);
      }
    }
  }

  lemma {:induction false} PiecesShape(st: Lex, piece: string, rest: string) returns (x: string)
    ensures var ps := Pieces(st, piece, rest);
            && ps[0] == piece + x
            && (if |ps| == 1 then Open(st, x) else Closed(st, x) && Shaped(ps[1..]))
    decreases |rest|
  {
    if rest == "" {
      x := "";
    } else if Cuts(st, rest[0]) {
      x := [rest[0]];
      var y := PiecesShape(START, "", rest[1..]);
      FirstThenShaped(y, Pieces(START, "", rest[1..]));
      assert Pieces(st, piece, rest)[1..] == Pieces(START, "", rest[1..]);
    } else {
      var y := PiecesShape(Next(st, rest[0]), piece + [rest[0]], rest[1..]);
      x := [rest[0]] + y;
      Associative(piece, [rest[0]], y);
      assert x[1..] == y;
    }
  }

  lemma FirstThenShaped(x: string, ps: seq<string>)
    requires ps != [] && ps[0] == "" + x
    requires if |ps| == 1 then Open(START, x) else Closed(START, x) && Shaped(ps[1..])
    ensures Shaped(ps)
  {
    assert "" + x == x;
    forall k | 0 <= k < |ps| - 1 ensures Closed(START, ps[k]) {
      assert k > 0 ==> ps[k] == ps[1..][k - 1];
    }
    assert |ps| > 1 ==> ps[|ps| - 1] == ps[1..][|ps| - 2];
  }

  /** The slices rebuild the text; each one but the tail ends at its only cut, and the tail has none. */
  lemma SlicesRebuild(css: string)
    ensures Flatten(Pieces(START, "", css)) == css
    ensures Shaped(Pieces(START, "", css))
  {
    var x := PiecesShape(START, "", css);
    FirstThenShaped(x, Pieces(START, "", css));
    PiecesFlatten(START, "", css);
    assert "" + css == css;
  }

  lemma {:induction false} PiecesClosed(st: Lex, piece: string, s: string, rest: string)
    requires Closed(st, s)
    ensures Pieces(st, piece, s + rest) == [piece + s] + Pieces(START, "", rest)
    decreases |s|
  {
    assert (s + rest)[0] == s[0] && (s + rest)[1..] == s[1..] + rest;
    if |s| == 1 {
      assert s[1..] + rest == rest && s == [s[0]];
    } else {
      PiecesClosed(Next(st, s[0]), piece + [s[0]], s[1..], rest);
      Associative(piece, [s[0]], s[1..]);
      assert [s[0]] + s[1..] == s;
    }
  }

  lemma {:induction false} PiecesOpen(st: Lex, piece: string, s: string)
    requires Open(st, s)
    ensures Pieces(st, piece, s) == [piece + s]
    decreases |s|
  {
    if s != "" {
      PiecesOpen(Next(st, s[0]), piece + [s[0]], s[1..]);
      Associative(piece, [s[0]], s[1..]);
      assert [s[0]] + s[1..] == s;
    } else {
      assert piece + s == piece;
    }
  }

  // ---------------------------------------------------------------- white space around slices

  lemma {:induction false} SkipBlank(w: string, t: string)
    requires Blank(w)
    ensures Open(START, w + t) <==> Open(START, t)
    ensures t != "" ==> (Closed(START, w + t) <==> Closed(START, t))
  {
    if w == "" {
      assert w + t == t;
    } else {
      assert IsSpace(w[0]);
      assert (w + t)[0] == w[0] && (w + t)[1..] == w[1..] + t;
      SkipBlank(w[1..], t);
    }
  }

  lemma {:induction false} OpenPrefix(st: Lex, a: string, b: string)
    requires Open(st, a + b)
    ensures Open(st, a)
    decreases |a|
  {
    if a != "" {
      assert (a + b)[0] == a[0] && (a + b)[1..] == a[1..] + b;
      OpenPrefix(Next(st, a[0]), a[1..], b);
    }
  }

  lemma {:induction false} OpenThenBlank(st: Lex, a: string, b: string)
    requires Open(st, a) && Blank(b)
    ensures Open(st, a + b)
    decreases |a| + |b|
  {
    if a != "" {
      assert (a + b)[0] == a[0] && (a + b)[1..] == a[1..] + b;
      OpenThenBlank(Next(st, a[0]), a[1..], b);
    } else if b != "" {
      assert IsSpace(b[0]);
      assert a + b == b;
      OpenThenBlank(Next(st, b[0]), "", b[1..]);
      assert "" + b[1..] == b[1..];
    } else {
      assert a + b == "";
    }
  }

  lemma {:induction false} ClosedEnds(st: Lex, s: string)
    requires Closed(st, s)
    ensures s[|s| - 1] == '}' || s[|s| - 1] == ';'
    decreases |s|
  {
    if |s| > 1 { ClosedEnds(Next(st, s[0]), s[1..]); }
  }

  /** A closed slice keeps its cut when it is trimmed. */
  lemma TrimClosed(p: string)
    requires Closed(START, p)
    ensures TrimSpace(p) != "" && Closed(START, TrimSpace(p))
  {
    var a, b := TrimParts(p);
    var t := TrimSpace(p);
    ClosedEnds(START, p);
    assert p == a + t;
    assert !IsSpace(p[|p| - 1]);
    assert !Blank(p);
    SkipBlank(a, t);
  }

  /** The tail stays without a cut when it is trimmed. */
  lemma TrimOpen(p: string)
    requires Open(START, p)
    ensures Open(START, TrimSpace(p))
  {
    var a, b := TrimParts(p);
    OpenPrefix(START, a + TrimSpace(p), b);
    SkipBlank(a, TrimSpace(p));
  }

  // ---------------------------------------------------------------- stability

  lemma UnitOfTrimmed(w: string, t: string, v: string)
    requires Blank(w) && Blank(v) && t != "" && !IsSpace(t[0]) && !IsSpace(t[|t| - 1])
    ensures Unit(w + t + v) == [t + "\n"]
  {
    TrimUnique(w, t, v);
  }

  lemma EmitOne(p: string)
    ensures Emit([p]) == Unit(p)
  {
    assert Emit([p]) == Unit(p) + Emit([]);
  }

  /** A closed unit in front of more text is split off unchanged. */
  lemma SplitOff(w: string, t: string, rest: string)
    requires Blank(w) && t != "" && !IsSpace(t[0]) && !IsSpace(t[|t| - 1]) && Closed(START, t)
    ensures Emit(Pieces(START, "", w + ((t + "\n") + rest))) == [t + "\n"] + Emit(Pieces(START, "", "\n" + rest))
  {
    assert w + ((t + "\n") + rest) == (w + t) + ("\n" + rest);
    SkipBlank(w, t);
    PiecesClosed(START, "", w + t, "\n" + rest);
    assert "" + (w + t) == w + t + "";
    UnitOfTrimmed(w, t, "");
    EmitOne(w + t + "");
    EmitConcat([w + t + ""], Pieces(START, "", "\n" + rest));
  }

  lemma FirstUnit(ps: seq<string>, t: string)
    requires ps != [] && Unit(ps[0]) == [t + "\n"]
    ensures Emit(ps) == [t + "\n"] + Emit(ps[1..])
    ensures Flatten(Emit(ps)) == (t + "\n") + Flatten(Emit(ps[1..]))
  {
    FlattenAppend([t + "\n"], Emit(ps[1..]));
    FlattenOne(t + "\n");
  }

  /** Splitting the joined units, after some white space, gives the same units. */
  lemma {:induction false} JoinedAgain(w: string, ps: seq<string>)
    requires Shaped(ps) && Blank(w)
    ensures Emit(Pieces(START, "", w + Flatten(Emit(ps)))) == Emit(ps)
    decreases |ps|
  {
    if |ps| == 1 {
      assert ps == [ps[0]];
      EmitOne(ps[0]);
      TailAgain(w, ps[0]);
    } else {
      JoinedAgain("\n", ps[1..]);
      JoinedStep(w, ps);
    }
  }

  lemma JoinedStep(w: string, ps: seq<string>)
    requires ps != [] && Closed(START, ps[0]) && Blank(w)
    requires Emit(Pieces(START, "", "\n" + Flatten(Emit(ps[1..])))) == Emit(ps[1..])
    ensures Emit(Pieces(START, "", w + Flatten(Emit(ps)))) == Emit(ps)
  {
    var t, rest := TrimSpace(ps[0]), Flatten(Emit(ps[1..]));
    var a, b := TrimParts(ps[0]);
    TrimClosed(ps[0]);
    FirstUnit(ps, t);
    SplitOff(w, t, rest);
  }

  lemma TailAgain(w: string, p: string)
    requires Open(START, p) && Blank(w)
    ensures Emit(Pieces(START, "", w + Flatten(Unit(p)))) == Unit(p)
  {
    var t := TrimSpace(p);
    var a, b := TrimParts(p);
    if t == "" {
      assert w + Flatten(Unit(p)) == w + "" == "" + w == w;
      SkipBlank(w, "");
      PiecesOpen(START, "", w);
      var a', b' := TrimParts(w);
      EmitOne(w);
    } else {
      FlattenOne(t + "\n");
      TrimOpen(p);
      SkipBlank(w, t);
      OpenThenBlank(START, w + t, "\n");
      assert w + (t + "\n") == w + t + "\n" == "" + (w + t + "\n");
      PiecesOpen(START, "", w + t + "\n");
      UnitOfTrimmed(w, t, "\n");
      EmitOne(w + t + "\n");
    }
  }

  /** Splitting the joined units gives exactly the same units. */
  lemma JoinedUnitsSplitAlike(css: string)
    ensures Units(Flatten(Units(css))) == Units(css)
  {
    SlicesRebuild(css);
    JoinedAgain("", Pieces(START, "", css));
    assert "" + Flatten(Units(css)) == Flatten(Units(css));
  }

  /** Every unit splits to itself. */
  lemma UnitSplitsToItself(css: string, k: nat)
    requires k < |Units(css)|
    ensures Units(Units(css)[k]) == [Units(css)[k]]
  {
    SlicesRebuild(css);
    var ps := Pieces(START, "", css);
    var n := EmitFrom(ps, k);
    var t := TrimSpace(ps[n]);
    var a, b := TrimParts(ps[n]);
    assert "" + (t + "\n") == t + "\n";
    if n < |ps| - 1 {
      TrimClosed(ps[n]);
      SplitOff("", t, "");
      assert "" + ((t + "\n") + "") == t + "\n" && "\n" + "" == "\n" == "" + "\n";
      assert Open(START, "\n");
      PiecesOpen(START, "", "\n");
      var a', b' := TrimParts("\n");
      EmitOne("\n");
    } else {
      TailAgain("", ps[n]);
      FlattenOne(t + "\n");
    }
  }

  lemma {:induction false} EmitFrom(ps: seq<string>, k: nat) returns (n: nat)
    requires k < |Emit(ps)|
    ensures n < |ps| && TrimSpace(ps[n]) != "" && Emit(ps)[k] == TrimSpace(ps[n]) + "\n"
  {
    if k < |Unit(ps[0])| {
      n := 0;
    } else {
      var m := EmitFrom(ps[1..], k - |Unit(ps[0])|);
      n := m + 1;
    }
  }

  // ---------------------------------------------------------------- units and white space

  /** The unit is the word and a line feed. The word is trimmed and has its only cut at its end, or none if it is the last. */
  ghost predicate UnitOf(unit: string, word: string, last: bool) {
    && unit == word + "\n"
    && word != "" && !IsSpace(word[0]) && !IsSpace(word[|word| - 1])
    && (Closed(START, word) || (last && Open(START, word)))
  }

  ghost predicate UnitsOf(units: seq<string>, words: seq<string>) {
    |units| == |words| && forall k :: 0 <= k < |units| ==> UnitOf(units[k], words[k], k == |units| - 1)
  }

  lemma {:induction false} EmitWoven(ps: seq<string>) returns (gaps: seq<string>, words: seq<string>)
    requires Shaped(ps)
    ensures |gaps| == |words| + 1 && AllBlank(gaps) && UnitsOf(Emit(ps), words) && Flatten(ps) == Interleaved(gaps, words)
    decreases |ps|
  {
    var p, t := ps[0], TrimSpace(ps[0]);
    var a, b := TrimParts(p);
    if |ps| == 1 {
      assert ps == [p];
      FlattenOne(p);
      EmitOne(p);
      TrimOpen(p);
      gaps, words := if t == "" then [p] else [a, b], if t == "" then [] else [t];
      if t != "" {
        OneWordMore(a, t, [b], []);
        Associative(a, t, b);
        assert [a] + [b] == [a, b] && [t] + [] == [t];
      }
    } else {
      gaps, words := EmitWoven(ps[1..]);
      TrimClosed(p);
      WiderGap(b, gaps, words);
      var gaps' := [b + gaps[0]] + gaps[1..];
      OneWordMore(a, t, gaps', words);
      BlankTogether(b, gaps);
      Associative(a + t, b, Interleaved(gaps, words));
      Associative(a, t, b + Interleaved(gaps, words));
      gaps, words := [a] + gaps', [t] + words;
      UnitsMore(t, Emit(ps[1..]), words[1..]);
    }
  }

  lemma UnitsMore(t: string, units: seq<string>, words: seq<string>)
    requires UnitsOf(units, words)
    requires t != "" && !IsSpace(t[0]) && !IsSpace(t[|t| - 1]) && Closed(START, t)
    ensures UnitsOf([t + "\n"] + units, [t] + words)
  {
    var units', words' := [t + "\n"] + units, [t] + words;
    forall k | 0 <= k < |units'| ensures UnitOf(units'[k], words'[k], k == |units'| - 1) {
      if k > 0 {
        assert UnitOf(units[k - 1], words[k - 1], k - 1 == |units| - 1);
        assert units'[k] == units[k - 1] && words'[k] == words[k - 1];
      } else {
        assert units'[0] == t + "\n" && words'[0] == t;
      }
    }
  }

  lemma BlankTogether(b: string, gaps: seq<string>)
    requires Blank(b) && gaps != [] && AllBlank(gaps)
    ensures AllBlank([b + gaps[0]] + gaps[1..])
  {
  }

  /** The units, each in front of its line feed, are the text but for white space before, between and behind them. Each
      starts and ends with something else than white space and has its only cut at its end, except that the last one may
      have none. */
  lemma UnitsAreTheText(css: string) returns (gaps: seq<string>, words: seq<string>)
    ensures UnitsOf(Units(css), words)
    ensures |gaps| == |words| + 1 && AllBlank(gaps) && css == Interleaved(gaps, words)
  {
    SlicesRebuild(css);
    gaps, words := EmitWoven(Pieces(START, "", css));
  }
}
