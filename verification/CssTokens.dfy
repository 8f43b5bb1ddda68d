/** An independent account of where CSS text may be cut: its strings, comments and brace depth as tokens. */
module CssTokens {
  import opened Texts
  import opened CssUnits

  datatype Item = Lit(c: char) | Escaped(c: char)

  /** A string or comment that the text does not close can only be its last token. */
  datatype Token =
    | Plain(c: char)
    | Text(quote: char, items: seq<Item>)
    | Remark(body: string)
    | OpenText(quote: char, items: seq<Item>, backslash: bool)
    | OpenRemark(body: string)

  predicate IsQuote(c: char) {
    c == '\'' || c == '"'
  }

  function SpellItem(i: Item): string {
    if i.Lit? then [i.c] else ['\\', i.c]
  }

  function SpellItems(items: seq<Item>): string {
    if items == [] then "" else SpellItem(items[0]) + SpellItems(items[1..])
  }

  lemma SpellCons(i: Item, items: seq<Item>, tail: string)
    ensures SpellItems([i] + items) + tail == SpellItem(i) + (SpellItems(items) + tail)
  {
    assert ([i] + items)[1..] == items;
    Associative(SpellItem(i), SpellItems(items), tail);
  }

  function Spell(t: Token): string {
    match t
    case Plain(c) => [c]
    case Text(q, items) => [q] + (SpellItems(items) + [q])
    case Remark(body) => "/*" + (body + "*/")
    case OpenText(q, items, backslash) => [q] + (SpellItems(items) + (if backslash then "\\" else ""))
    case OpenRemark(body) => "/*" + body
  }

  function Spelling(ts: seq<Token>): string {
    if ts == [] then "" else Spell(ts[0]) + Spelling(ts[1..])
  }

  predicate GoodItems(q: char, items: seq<Item>) {
    IsQuote(q) && forall i :: 0 <= i < |items| ==> items[i].Lit? ==> items[i].c != q && items[i].c != '\\'
  }

  predicate NoClose(body: string) {
    forall i :: 0 <= i < |body| - 1 ==> !(body[i] == '*' && body[i + 1] == '/')
  }

  predicate Good(t: Token, more: seq<Token>) {
    match t
    case Plain(c) => !IsQuote(c) && (c == '/' && more != [] ==> more[0] != Plain('*'))
    case Text(q, items) => GoodItems(q, items)
    case Remark(body) => NoClose(body)
    case OpenText(q, items, _) => GoodItems(q, items) && more == []
    case OpenRemark(body) => NoClose(body) && more == []
  }

  predicate WellFormed(ts: seq<Token>) {
    ts == [] || (Good(ts[0], ts[1..]) && WellFormed(ts[1..]))
  }

  /** Slices of the text: cut after a semicolon at depth 0 and after a closing brace that leaves depth 0. */
  function Group(depth: nat, piece: string, ts: seq<Token>): seq<string>
    decreases |ts|
  {
    if ts == [] then [piece]
    else
      var t := ts[0];
      if t == Plain('}') && depth <= 1 then [piece + "}"] + Group(0, "", ts[1..])
      else if t == Plain(';') && depth == 0 then [piece + ";"] + Group(0, "", ts[1..])
      else
        Group(if t == Plain('{') then depth + 1 else if t == Plain('}') then depth - 1 else depth, piece + Spell(t), ts[1..])
  }

  // ---------------------------------------------------------------- the scanner on tokens

  lemma PiecesChar(st: Lex, piece: string, c: char, rest: string)
    ensures Pieces(st, piece, [c] + rest) ==
            if Cuts(st, c) then [piece + [c]] + Pieces(START, "", rest) else Pieces(Next(st, c), piece + [c], rest)
  {
    assert ([c] + rest)[1..] == rest;
  }

  lemma {:induction false} ScanItems(q: char, items: seq<Item>, depth: nat, piece: string, rest: string)
    requires GoodItems(q, items)
    ensures Pieces(Str(q, depth), piece, SpellItems(items) + rest) == Pieces(Str(q, depth), piece + SpellItems(items), rest)
  {
    if items == [] {
      assert SpellItems(items) + rest == rest && piece + SpellItems(items) == piece;
    } else {
      var i, more := items[0], SpellItems(items[1..]);
      Associative(SpellItem(i), more, rest);
      Associative(piece, SpellItem(i), more);
      ScanItem(q, i, depth, piece, more + rest);
      ScanItems(q, items[1..], depth, piece + SpellItem(i), rest);
    }
  }

  lemma ScanItem(q: char, i: Item, depth: nat, piece: string, rest: string)
    requires GoodItems(q, [i])
    ensures Pieces(Str(q, depth), piece, SpellItem(i) + rest) == Pieces(Str(q, depth), piece + SpellItem(i), rest)
  {
    assert [i][0] == i;
    if i.Lit? {
      PiecesChar(Str(q, depth), piece, i.c, rest);
    } else {
      Associative(['\\'], [i.c], rest);
      Associative(piece, ['\\'], [i.c]);
      assert SpellItem(i) == ['\\'] + [i.c];
      PiecesChar(Str(q, depth), piece, '\\', [i.c] + rest);
      PiecesChar(Esc(q, depth), piece + ['\\'], i.c, rest);
    }
  }

  lemma {:induction false} ScanRemark(st: Lex, body: string, piece: string, rest: string) returns (st': Lex)
    requires st.Comment? || st.Star?
    requires NoClose(body) && (st.Star? && body != "" ==> body[0] != '/')
    ensures (st'.Comment? || st'.Star?) && st'.depth == st.depth
    ensures Pieces(st, piece, body + rest) == Pieces(st', piece + body, rest)
    decreases |body|
  {
    if body == "" {
      st' := st;
      assert body + rest == rest && piece + body == piece;
    } else {
      assert body + rest == [body[0]] + (body[1..] + rest);
      PiecesChar(st, piece, body[0], body[1..] + rest);
      if |body| > 1 && body[0] == '*' { assert body[1..][0] == body[1]; }
      st' := ScanRemark(Next(st, body[0]), body[1..], piece + [body[0]], rest);
      assert (piece + [body[0]]) + body[1..] == piece + body;
    }
  }

  lemma ScanText(st: Lex, t: Token, piece: string, rest: string)
    requires (st.Base? || st.Slash?) && t.Text? && GoodItems(t.quote, t.items)
    ensures Pieces(st, piece, Spell(t) + rest) == Pieces(Base(st.depth), piece + Spell(t), rest)
  {
    var q, s := t.quote, SpellItems(t.items);
    assert Spell(t) + rest == [q] + (s + ([q] + rest));
    PiecesChar(st, piece, q, s + ([q] + rest));
    ScanItems(q, t.items, st.depth, piece + [q], [q] + rest);
    PiecesChar(Str(q, st.depth), piece + [q] + s, q, rest);
    assert piece + [q] + s + [q] == piece + Spell(t);
  }

  lemma ScanComment(st: Lex, t: Token, piece: string, rest: string)
    requires (st.Base? || st.Slash?) && t.Remark? && NoClose(t.body)
    ensures Pieces(st, piece, Spell(t) + rest) == Pieces(Base(st.depth), piece + Spell(t), rest)
  {
    var body := t.body;
    Associative("/*", body + "*/", rest);
    Associative(body, "*/", rest);
    ScanOpening(st, piece, body + ("*/" + rest));
    var st' := ScanRemark(Comment(st.depth), body, piece + "/*", "*/" + rest);
    ScanClosing(st', piece + "/*" + body, rest);
    Associative(piece, "/*", body + "*/");
    Associative(piece + "/*", body, "*/");
  }

  lemma ScanOpening(st: Lex, piece: string, rest: string)
    requires st.Base? || st.Slash?
    ensures Pieces(st, piece, "/*" + rest) == Pieces(Comment(st.depth), piece + "/*", rest)
  {
    assert "/*" + rest == ['/'] + (['*'] + rest);
    PiecesChar(st, piece, '/', ['*'] + rest);
    PiecesChar(Slash(st.depth), piece + ['/'], '*', rest);
    assert piece + ['/'] + ['*'] == piece + "/*";
  }

  lemma ScanClosing(st: Lex, piece: string, rest: string)
    requires st.Comment? || st.Star?
    ensures Pieces(st, piece, "*/" + rest) == Pieces(Base(st.depth), piece + "*/", rest)
  {
    assert "*/" + rest == ['*'] + (['/'] + rest);
    PiecesChar(st, piece, '*', ['/'] + rest);
    PiecesChar(Star(st.depth), piece + ['*'], '/', rest);
    assert piece + ['*'] + ['/'] == piece + "*/";
  }

  lemma ScanUnclosed(st: Lex, t: Token, piece: string)
    requires (st.Base? || st.Slash?) && (t.OpenText? || t.OpenRemark?) && Good(t, [])
    ensures Pieces(st, piece, Spell(t)) == [piece + Spell(t)]
  {
    if t.OpenText? {
      ScanOpenText(st, t, piece);
    } else {
      var body := t.body;
      assert body + "" == body;
      ScanOpening(st, piece, body);
      var st' := ScanRemark(Comment(st.depth), body, piece + "/*", "");
      Associative(piece, "/*", body);
    }
  }

  lemma ScanOpenText(st: Lex, t: Token, piece: string)
    requires (st.Base? || st.Slash?) && t.OpenText? && GoodItems(t.quote, t.items)
    ensures Pieces(st, piece, Spell(t)) == [piece + Spell(t)]
  {
    var q, s, e := t.quote, SpellItems(t.items), if t.backslash then "\\" else "";
    PiecesChar(st, piece, q, s + e);
    ScanItems(q, t.items, st.depth, piece + [q], e);
    Associative(piece, [q], s + e);
    Associative(piece + [q], s, e);
    if t.backslash {
      assert e == ['\\'] + "";
      PiecesChar(Str(q, st.depth), piece + [q] + s, '\\', "");
    } else {
      assert (piece + [q] + s) + e == piece + [q] + s;
    }
  }

  /** For every way to read the text as tokens, the scanner's slices are the token groups. */
  lemma {:induction false} SlicesAreGroups(st: Lex, piece: string, ts: seq<Token>)
    requires WellFormed(ts) && (st.Base? || st.Slash?)
    requires st.Slash? && ts != [] ==> ts[0] != Plain('*')
    ensures Pieces(st, piece, Spelling(ts)) == Group(st.depth, piece, ts)
    decreases |ts|
  {
    if ts != [] {
      var t, more := ts[0], ts[1..];
      match t
      case Plain(c) =>
        PiecesChar(st, piece, c, Spelling(more));
        if Cuts(st, c) {
          SlicesAreGroups(START, "", more);
        } else {
          assert Next(st, c) == NextBase(st.depth, c);
          SlicesAreGroups(Next(st, c), piece + [c], more);
        }
      case Text(_, _) =>
        ScanText(st, t, piece, Spelling(more));
        SlicesAreGroups(Base(st.depth), piece + Spell(t), more);
      case Remark(_) =>
        ScanComment(st, t, piece, Spelling(more));
        SlicesAreGroups(Base(st.depth), piece + Spell(t), more);
      case _ =>
        LastToken(st, piece, ts);
    }
  }

  lemma LastToken(st: Lex, piece: string, ts: seq<Token>)
    requires (st.Base? || st.Slash?) && |ts| == 1 && (ts[0].OpenText? || ts[0].OpenRemark?) && Good(ts[0], [])
    ensures Pieces(st, piece, Spelling(ts)) == Group(st.depth, piece, ts)
  {
    assert Spelling(ts) == Spell(ts[0]) + "" == Spell(ts[0]);
    ScanUnclosed(st, ts[0], piece);
    assert Group(st.depth, piece, ts) == Group(st.depth, piece + Spell(ts[0]), []);
  }

  // ---------------------------------------------------------------- every text has tokens

  datatype TextScan = TextScan(items: seq<Item>, closed: bool, backslash: bool, rest: string)

  function TakeText(q: char, s: string): TextScan
    decreases |s|
  {
    if s == "" then TextScan([], false, false, "")
    else if s[0] == q then TextScan([], true, false, s[1..])
    else if s[0] == '\\' then
      if |s| == 1 then TextScan([], false, true, "")
      else var r := TakeText(q, s[2..]); r.(items := [Escaped(s[1])] + r.items)
    else var r := TakeText(q, s[1..]); r.(items := [Lit(s[0])] + r.items)
  }

  datatype RemarkScan = RemarkScan(body: string, closed: bool, rest: string)

  function TakeRemark(s: string): RemarkScan
    decreases |s|
  {
    if s == "" then RemarkScan("", false, "")
    else if |s| > 1 && s[0] == '*' && s[1] == '/' then RemarkScan("", true, s[2..])
    else var r := TakeRemark(s[1..]); r.(body := [s[0]] + r.body)
  }

  lemma {:induction false} TextTaken(q: char, s: string)
    requires IsQuote(q)
    ensures var r := TakeText(q, s);
            && GoodItems(q, r.items) && |r.rest| <= |s|
            && (!r.closed ==> r.rest == "")
            && s == SpellItems(r.items) + TextEnd(q, r)
    decreases |s|
  {
    var r := TakeText(q, s);
    if s == "" || s[0] == q || (s[0] == '\\' && |s| == 1) {
      assert SpellItems([]) + TextEnd(q, r) == TextEnd(q, r);
    } else {
      var n := if s[0] == '\\' then 2 else 1;
      TextTaken(q, s[n..]);
      var r' := TakeText(q, s[n..]);
      SpellCons(r.items[0], r'.items, TextEnd(q, r'));
      assert s == SpellItem(r.items[0]) + s[n..];
    }
  }

  function TextEnd(q: char, r: TextScan): string {
    if r.closed then [q] + r.rest else if r.backslash then "\\" else ""
  }

  function RemarkEnd(r: RemarkScan): string {
    if r.closed then "*/" + r.rest else ""
  }

  lemma {:induction false} RemarkTaken(s: string)
    ensures var r := TakeRemark(s);
            && NoClose(r.body) && |r.rest| <= |s|
            && (!r.closed ==> r.rest == "")
            && s == r.body + RemarkEnd(r)
            && (r.body != "" ==> s[0] == r.body[0])
    decreases |s|
  {
    var r := TakeRemark(s);
    if s == "" || (|s| > 1 && s[0] == '*' && s[1] == '/') {
      assert s == RemarkEnd(r) == "" + RemarkEnd(r);
    } else {
      RemarkTaken(s[1..]);
      var r' := TakeRemark(s[1..]);
      Associative([s[0]], r'.body, RemarkEnd(r'));
      assert s == [s[0]] + s[1..];
      assert |r'.body| > 0 ==> s[1] == r'.body[0];
    }
  }

  lemma {:induction false} EveryTextHasTokens(s: string) returns (ts: seq<Token>)
    ensures WellFormed(ts) && Spelling(ts) == s
    decreases |s|
  {
    if s == "" {
      ts := [];
    } else {
      var t, rest: string := TakeToken(s);
      var more := EveryTextHasTokens(rest);
      ts := [t] + more;
      assert ts[1..] == more;
      assert more != [] ==> Spelling(more)[0] == Spell(more[0])[0];
      assert t.Plain? ==> s[1..] == rest;
    }
  }

  lemma TakeToken(s: string) returns (t: Token, rest: string)
    requires s != ""
    ensures |rest| < |s| && s == Spell(t) + rest
    ensures Good(t, []) && (t.OpenText? || t.OpenRemark? ==> rest == "")
    ensures t == Plain('/') ==> !(|s| > 1 && s[1] == '*')
  {
    if IsQuote(s[0]) {
      t, rest := TakeTextToken(s);
    } else if |s| > 1 && s[0] == '/' && s[1] == '*' {
      t, rest := TakeRemarkToken(s);
    } else {
      t, rest := Plain(s[0]), s[1..];
    }
  }

  lemma TakeTextToken(s: string) returns (t: Token, rest: string)
    requires s != "" && IsQuote(s[0])
    ensures |rest| < |s| && s == Spell(t) + rest
    ensures Good(t, []) && !t.Plain? && (t.OpenText? ==> rest == "") && !t.OpenRemark?
  {
    var q := s[0];
    TextTaken(q, s[1..]);
    var r := TakeText(q, s[1..]);
    t := if r.closed then Text(q, r.items) else OpenText(q, r.items, r.backslash);
    rest := r.rest;
    assert s == [q] + s[1..];
    if r.closed {
      Associative(SpellItems(r.items), [q], rest);
      Associative([q], SpellItems(r.items) + [q], rest);
    } else {
      assert Spell(t) + "" == Spell(t);
    }
  }

  lemma TakeRemarkToken(s: string) returns (t: Token, rest: string)
    requires |s| > 1 && s[0] == '/' && s[1] == '*'
    ensures |rest| < |s| && s == Spell(t) + rest
    ensures Good(t, []) && !t.Plain? && !t.OpenText? && (t.OpenRemark? ==> rest == "")
  {
    RemarkTaken(s[2..]);
    var r := TakeRemark(s[2..]);
    t := if r.closed then Remark(r.body) else OpenRemark(r.body);
    rest := r.rest;
    assert s == "/*" + s[2..];
    if r.closed {
      Associative(r.body, "*/", rest);
      Associative("/*", r.body + "*/", rest);
    } else {
      assert Spell(t) + "" == Spell(t) && r.body + "" == r.body;
    }
  }

  /** Every text can be read as tokens, and its slices are the groups of any such reading: the cuts are exactly the
      top-level semicolons and the braces that return to depth 0, never inside a string or a comment. */
  lemma CutsAreTopLevel(css: string) returns (ts: seq<Token>)
    ensures WellFormed(ts) && Spelling(ts) == css
    ensures Pieces(START, "", css) == Group(0, "", ts)
  {
    ts := EveryTextHasTokens(css);
    SlicesAreGroups(START, "", ts);
  }
}
