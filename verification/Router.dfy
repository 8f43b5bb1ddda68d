/** The router's tables and which of the registered routes answers a request. */
module Routers {
  import opened Letters
  import opened Options
  import opened RouteMatch

  /** A handler, by its name. */
  type Handler = string

  datatype Route = Route(pattern: string, segments: seq<Segment>, handler: Handler)

  /** What has been registered: the method in upper case and the cleaned pattern. */
  datatype Registration = Registration(fallback: bool, verb: string, pattern: string, handler: Handler)

  datatype Answer =
    | Handled(handler: Handler, params: Params)
    | Allow(verbs: set<string>)
    | NotFound

  predicate Literal(pattern: string) {
    ':' !in pattern && '*' !in pattern
  }

  predicate LiteralFor(r: Registration, fallback: bool, verb: string, p: string) {
    r.fallback == fallback && r.verb == verb && r.pattern == p && Literal(p)
  }

  predicate DynamicFor(r: Registration, fallback: bool, verb: string) {
    r.fallback == fallback && r.verb == verb && !Literal(r.pattern)
  }

  /** Every pattern is clean. */
  ghost predicate Registered(log: seq<Registration>) {
    forall i :: 0 <= i < |log| ==> Cleaned(log[i].pattern)
  }

  /** The literal route for a path: the last one registered. */
  function LastLiteral(log: seq<Registration>, fallback: bool, verb: string, p: string): Option<Handler> {
    if log == [] then None
    else if LiteralFor(log[|log| - 1], fallback, verb, p) then Some(log[|log| - 1].handler)
    else LastLiteral(log[..|log| - 1], fallback, verb, p)
  }

  /** The routes with parameters, in the order of their registration. */
  function Dynamics(log: seq<Registration>, fallback: bool, verb: string): seq<Route> {
    if log == [] then []
    else
      var r := log[|log| - 1];
      Dynamics(log[..|log| - 1], fallback, verb)
      + if DynamicFor(r, fallback, verb) then [Route(r.pattern, Compiled(r.pattern), r.handler)] else []
  }

  /** The first route that matches. */
  function FirstMatch(routes: seq<Route>, p: string): Option<Answer> {
    if routes == [] then None
    else if Match(routes[0].segments, p).Some? then Some(Handled(routes[0].handler, Match(routes[0].segments, p).value))
    else FirstMatch(routes[1..], p)
  }

  /** One of the two stages, ordinary routes or fallbacks: a literal route goes before every other. */
  function Stage(log: seq<Registration>, fallback: bool, verb: string, p: string): Option<Answer> {
    if LastLiteral(log, fallback, verb, p).Some? then Some(Handled(LastLiteral(log, fallback, verb, p).value, map[]))
    else FirstMatch(Dynamics(log, fallback, verb), p)
  }

  /** Some ordinary route of the method answers the path. */
  predicate Known(log: seq<Registration>, verb: string, p: string) {
    Stage(log, false, verb, p).Some?
  }

  /** The tables of a stage stand for what has been registered. */
  ghost predicate Stand(literal: map<string, map<string, Handler>>, dyn: map<string, seq<Route>>, log: seq<Registration>, fallback: bool) {
    && (forall verb, p :: LookUp(literal, verb, p) == LastLiteral(log, fallback, verb, p))
    && (forall verb :: Routes(dyn, verb) == Dynamics(log, fallback, verb))
  }

  class Router {
    var literal: map<string, map<string, Handler>>
    var dyn: map<string, seq<Route>>
    var fallbackLiteral: map<string, map<string, Handler>>
    var fallbackDyn: map<string, seq<Route>>
    /** What has been registered, in order. */
    ghost var log: seq<Registration>

    ghost predicate Valid()
      reads this
    {
      Stand(literal, dyn, log, false) && Stand(fallbackLiteral, fallbackDyn, log, true) && Registered(log)
    }

    constructor ()
      ensures Valid() && log == []
    {
      literal, dyn, fallbackLiteral, fallbackDyn := map[], map[], map[], map[];
      log := [];
    }

    method Handle(verb: string, pattern: string, handler: Handler)
      requires Valid()
      modifies this
      ensures Valid() && log == old(log) + [Registration(false, Upper(verb), CleanPath(pattern), handler)]
    {
      var m, p := Upper(verb), CleanPath(pattern);
      ghost var r := Registration(false, m, p, handler);
      CleanPathIsClean(pattern);
      if ':' !in p && '*' !in p {
        var routes := if m in literal then literal[m] else map[];
        literal := literal[m := routes[p := handler]];
      } else {
        var segs := CompilePattern(p);
        dyn := dyn[m := Routes(dyn, m) + [Route(p, segs, handler)]];
      }
      RegistersBoth(old(literal), old(dyn), literal, dyn, old(fallbackLiteral), old(fallbackDyn), fallbackLiteral, fallbackDyn, log, r);
      log := log + [r];
    }

    method HandleFallback(verb: string, pattern: string, handler: Handler)
      requires Valid()
      modifies this
      ensures Valid() && log == old(log) + [Registration(true, Upper(verb), CleanPath(pattern), handler)]
    {
      var m, p := Upper(verb), CleanPath(pattern);
      ghost var r := Registration(true, m, p, handler);
      CleanPathIsClean(pattern);
      if ':' !in p && '*' !in p {
        var routes := if m in fallbackLiteral then fallbackLiteral[m] else map[];
        fallbackLiteral := fallbackLiteral[m := routes[p := handler]];
      } else {
        var segs := CompilePattern(p);
        fallbackDyn := fallbackDyn[m := Routes(fallbackDyn, m) + [Route(p, segs, handler)]];
      }
      RegistersBoth(old(literal), old(dyn), literal, dyn, old(fallbackLiteral), old(fallbackDyn), fallbackLiteral, fallbackDyn, log, r);
      log := log + [r];
    }

    /** The ordinary routes go before the fallbacks; only a request for the options of a known path is answered by the
        router itself, with exactly the methods that have an ordinary route for it. */
    method Serve(verb: string, path: string) returns (a: Answer)
      requires Valid()
      ensures var p := CleanPath(path);
              var ordinary, fallback := Stage(log, false, verb, p), Stage(log, true, verb, p);
              && (ordinary.Some? ==> a == ordinary.value)
              && (ordinary.None? && fallback.Some? ==> a == fallback.value)
              && (ordinary.None? && fallback.None? ==>
                    if verb == "OPTIONS" && exists v :: Known(log, v, p)
                    then a.Allow? && forall v :: v in a.verbs <==> Known(log, v, p)
                    else a == NotFound)
    {
      var p := CleanPath(path);
      assert LookUp(literal, verb, p) == LastLiteral(log, false, verb, p);
      if verb in literal && p in literal[verb] {
        return Handled(literal[verb][p], map[]);
      }
      var found := ServeDynamic(Routes(dyn, verb), p);
      if found.Some? { return found.value; }
      assert LookUp(fallbackLiteral, verb, p) == LastLiteral(log, true, verb, p);
      if verb in fallbackLiteral && p in fallbackLiteral[verb] {
        return Handled(fallbackLiteral[verb][p], map[]);
      }
      found := ServeDynamic(Routes(fallbackDyn, verb), p);
      if found.Some? { return found.value; }
      if verb == "OPTIONS" {
        var allowed := Options(p);
        assert allowed == {} <==> !exists v :: Known(log, v, p);
        if allowed != {} { return Allow(allowed); }
      }
      return NotFound;
    }

    method ServeDynamic(routes: seq<Route>, p: string) returns (a: Option<Answer>)
      ensures a == FirstMatch(routes, p)
    {
      for i := 0 to |routes|
        invariant FirstMatch(routes[i..], p) == FirstMatch(routes, p)
      {
        From(routes, i);
        var params := MatchSegments(routes[i].segments, p);
        if params.Some? { return Some(Handled(routes[i].handler, params.value)); }
      }
      return None;
    }

    method Options(p: string) returns (allowed: set<string>)
      requires Valid()
      ensures forall v :: v in allowed <==> Known(log, v, p)
    {
      allowed := {};
      var verbs := literal.Keys;
      while verbs != {}
        invariant verbs <= literal.Keys
        invariant forall v :: v in allowed <==> v !in verbs && LookUp(literal, v, p).Some?
      {
        var verb :| verb in verbs;
        if p in literal[verb] { allowed := allowed + {verb}; }
        verbs := verbs - {verb};
      }
      verbs := dyn.Keys;
      while verbs != {}
        invariant verbs <= dyn.Keys
        invariant forall v :: v in allowed <==> LookUp(literal, v, p).Some? || (v !in verbs && FirstMatch(Routes(dyn, v), p).Some?)
      {
        var verb :| verb in verbs;
        var any := AnyMatch(dyn[verb], p);
        if any { allowed := allowed + {verb}; }
        verbs := verbs - {verb};
      }
    }

    method AnyMatch(routes: seq<Route>, p: string) returns (any: bool)
      ensures any <==> FirstMatch(routes, p).Some?
    {
      for i := 0 to |routes|
        invariant FirstMatch(routes[i..], p) == FirstMatch(routes, p)
      {
        From(routes, i);
        any := FastMatchNoParams(routes[i].segments, p);
        if any { return true; }
      }
      return false;
    }
  }

  function LookUp(table: map<string, map<string, Handler>>, verb: string, p: string): Option<Handler> {
    if verb in table && p in table[verb] then Some(table[verb][p]) else None
  }

  function Routes(table: map<string, seq<Route>>, verb: string): seq<Route> {
    if verb in table then table[verb] else []
  }

  lemma Extended(log: seq<Registration>, r: Registration)
    ensures (log + [r])[..|log + [r]| - 1] == log && (log + [r])[|log + [r]| - 1] == r
  {
  }

  lemma LastOf(log: seq<Registration>, r: Registration, fallback: bool, verb: string, p: string)
    ensures LastLiteral(log + [r], fallback, verb, p) == if LiteralFor(r, fallback, verb, p) then Some(r.handler) else LastLiteral(log, fallback, verb, p)
  {
    Extended(log, r);
  }

  lemma DynamicsOf(log: seq<Registration>, r: Registration, fallback: bool, verb: string)
    ensures Dynamics(log + [r], fallback, verb)
            == Dynamics(log, fallback, verb) + if DynamicFor(r, fallback, verb) then [Route(r.pattern, Compiled(r.pattern), r.handler)] else []
  {
    Extended(log, r);
  }

  /** What a registration leaves of a stage: its literal table and its other one. */
  ghost predicate Takes(literal: map<string, map<string, Handler>>, dyn: map<string, seq<Route>>,
                        literal': map<string, map<string, Handler>>, dyn': map<string, seq<Route>>, fallback: bool, r: Registration) {
    if r.fallback != fallback then literal' == literal && dyn' == dyn
    else if Literal(r.pattern) then
      dyn' == dyn && literal' == literal[r.verb := (if r.verb in literal then literal[r.verb] else map[])[r.pattern := r.handler]]
    else literal' == literal && dyn' == dyn[r.verb := Routes(dyn, r.verb) + [Route(r.pattern, Compiled(r.pattern), r.handler)]]
  }

  lemma Registers(literal: map<string, map<string, Handler>>, dyn: map<string, seq<Route>>, literal': map<string, map<string, Handler>>,
                  dyn': map<string, seq<Route>>, log: seq<Registration>, fallback: bool, r: Registration)
    requires Stand(literal, dyn, log, fallback) && Takes(literal, dyn, literal', dyn', fallback, r)
    ensures Stand(literal', dyn', log + [r], fallback)
  {
    forall verb, p ensures LookUp(literal', verb, p) == LastLiteral(log + [r], fallback, verb, p) {
      LastOf(log, r, fallback, verb, p);
      assert LookUp(literal, verb, p) == LastLiteral(log, fallback, verb, p);
    }
    forall verb ensures Routes(dyn', verb) == Dynamics(log + [r], fallback, verb) {
      DynamicsOf(log, r, fallback, verb);
      assert Routes(dyn, verb) == Dynamics(log, fallback, verb);
    }
  }

  lemma RegistersBoth(literal: map<string, map<string, Handler>>, dyn: map<string, seq<Route>>, literal': map<string, map<string, Handler>>,
                      dyn': map<string, seq<Route>>, fallback: map<string, map<string, Handler>>, other: map<string, seq<Route>>,
                      fallback': map<string, map<string, Handler>>, other': map<string, seq<Route>>, log: seq<Registration>, r: Registration)
    requires Stand(literal, dyn, log, false) && Stand(fallback, other, log, true) && Registered(log) && Cleaned(r.pattern)
    requires Takes(literal, dyn, literal', dyn', false, r) && Takes(fallback, other, fallback', other', true, r)
    ensures Stand(literal', dyn', log + [r], false) && Stand(fallback', other', log + [r], true) && Registered(log + [r])
  {
    Registers(literal, dyn, literal', dyn', log, false, r);
    Registers(fallback, other, fallback', other', log, true, r);
  }

  // ---------------------------------------------------------------- the registrations decide

  lemma {:induction false} FirstMatchAppend(routes: seq<Route>, more: seq<Route>, p: string)
    ensures FirstMatch(routes + more, p) == if FirstMatch(routes, p).Some? then FirstMatch(routes, p) else FirstMatch(more, p)
    decreases |routes|
  {
    if routes == [] {
      assert routes + more == more;
    } else {
      assert (routes + more)[0] == routes[0] && (routes + more)[1..] == routes[1..] + more;
      FirstMatchAppend(routes[1..], more, p);
    }
  }

  predicate Matches(r: Registration, fallback: bool, verb: string, p: string) {
    DynamicFor(r, fallback, verb) && Match(Compiled(r.pattern), p).Some?
  }

  lemma {:induction false} LiteralAnswers(log: seq<Registration>, fallback: bool, verb: string, p: string)
    ensures LastLiteral(log, fallback, verb, p).Some? <==> exists r :: r in log && LiteralFor(r, fallback, verb, p)
    decreases |log|
  {
    if log != [] {
      var before, last := log[..|log| - 1], log[|log| - 1];
      LiteralAnswers(before, fallback, verb, p);
      assert forall r :: r in log <==> r in before || r == last;
    }
  }

  lemma {:induction false} DynamicAnswers(log: seq<Registration>, fallback: bool, verb: string, p: string)
    ensures FirstMatch(Dynamics(log, fallback, verb), p).Some? <==> exists r :: r in log && Matches(r, fallback, verb, p)
    decreases |log|
  {
    if log != [] {
      var before, r := log[..|log| - 1], log[|log| - 1];
      DynamicAnswers(before, fallback, verb, p);
      assert forall r' :: r' in log <==> r' in before || r' == r;
      if DynamicFor(r, fallback, verb) {
        var last := [Route(r.pattern, Compiled(r.pattern), r.handler)];
        FirstMatchAppend(Dynamics(before, fallback, verb), last, p);
        assert last[0] == Route(r.pattern, Compiled(r.pattern), r.handler) && last[1..] == [];
        assert FirstMatch(last[1..], p).None?;
        assert FirstMatch(last, p).Some? <==> Matches(r, fallback, verb, p);
      } else {
        assert Dynamics(before, fallback, verb) + [] == Dynamics(before, fallback, verb);
      }
    }
  }

  /** A stage answers exactly when something registered for it is literally the path or matches it. */
  lemma StageAnswers(log: seq<Registration>, fallback: bool, verb: string, p: string)
    ensures Stage(log, fallback, verb, p).Some?
            <==> exists r :: r in log && (LiteralFor(r, fallback, verb, p) || Matches(r, fallback, verb, p))
  {
    LiteralAnswers(log, fallback, verb, p);
    DynamicAnswers(log, fallback, verb, p);
  }

  /** A later registration takes a path over only with a literal route for it: routes with parameters keep what they
      have. */
  lemma LaterRegistration(log: seq<Registration>, r: Registration, fallback: bool, verb: string, p: string)
    requires Stage(log, fallback, verb, p).Some? && !LiteralFor(r, fallback, verb, p)
    ensures Stage(log + [r], fallback, verb, p) == Stage(log, fallback, verb, p)
  {
    Extended(log, r);
    var last := if DynamicFor(r, fallback, verb) then [Route(r.pattern, Compiled(r.pattern), r.handler)] else [];
    FirstMatchAppend(Dynamics(log, fallback, verb), last, p);
  }

  // ---------------------------------------------------------------- who answers

  /** The i-th registration is the last literal route for the path. */
  ghost predicate LastLiteralAt(log: seq<Registration>, fallback: bool, verb: string, p: string, i: nat) {
    && i < |log| && LiteralFor(log[i], fallback, verb, p)
    && forall j :: i < j < |log| ==> !LiteralFor(log[j], fallback, verb, p)
  }

  ghost predicate HasLiteral(log: seq<Registration>, fallback: bool, verb: string, p: string) {
    exists i :: 0 <= i < |log| && LiteralFor(log[i], fallback, verb, p)
  }

  /** The path is the registered pattern with texts for its segments. */
  ghost predicate Covered(r: Registration, fallback: bool, verb: string, p: string) {
    DynamicFor(r, fallback, verb) && exists texts :: StandsFor(Compiled(r.pattern), texts, p)
  }

  /** The i-th registration is the first route with parameters whose pattern covers the path. */
  ghost predicate FirstCoveredAt(log: seq<Registration>, fallback: bool, verb: string, p: string, i: nat) {
    && i < |log| && Covered(log[i], fallback, verb, p)
    && forall j :: 0 <= j < i ==> !Covered(log[j], fallback, verb, p)
  }

  lemma CoveredIff(r: Registration, fallback: bool, verb: string, p: string)
    requires Cleaned(r.pattern) && Cleaned(p)
    ensures Matches(r, fallback, verb, p) <==> Covered(r, fallback, verb, p)
  {
    if DynamicFor(r, fallback, verb) {
      assert r.pattern != "/" by { assert forall c :: c in "/" ==> c == '/'; }
      CompiledWellFormed(r.pattern);
      MatchByTexts(Compiled(r.pattern), p);
    }
  }

  lemma {:induction false} FindLiteral(log: seq<Registration>, fallback: bool, verb: string, p: string) returns (i: nat)
    ensures LastLiteral(log, fallback, verb, p).None? ==> !HasLiteral(log, fallback, verb, p)
    ensures LastLiteral(log, fallback, verb, p).Some? ==>
              LastLiteralAt(log, fallback, verb, p, i) && LastLiteral(log, fallback, verb, p).value == log[i].handler
    decreases |log|
  {
    i := 0;
    if log != [] {
      if LiteralFor(log[|log| - 1], fallback, verb, p) {
        i := |log| - 1;
      } else {
        i := FindLiteral(log[..|log| - 1], fallback, verb, p);
        assert forall j :: 0 <= j < |log| - 1 ==> log[..|log| - 1][j] == log[j];
      }
    }
  }

  lemma {:induction false} FindDynamic(log: seq<Registration>, fallback: bool, verb: string, p: string) returns (i: nat)
    ensures var found := FirstMatch(Dynamics(log, fallback, verb), p);
            if found.None? then forall j :: 0 <= j < |log| ==> !Matches(log[j], fallback, verb, p)
            else
              && i < |log| && Matches(log[i], fallback, verb, p)
              && (forall j :: 0 <= j < i ==> !Matches(log[j], fallback, verb, p))
              && found.value == Handled(log[i].handler, Match(Compiled(log[i].pattern), p).value)
    decreases |log|
  {
    i := 0;
    if log != [] {
      var before, r := log[..|log| - 1], log[|log| - 1];
      i := FindDynamic(before, fallback, verb, p);
      var last := if DynamicFor(r, fallback, verb) then [Route(r.pattern, Compiled(r.pattern), r.handler)] else [];
      FirstMatchAppend(Dynamics(before, fallback, verb), last, p);
      LastAnswers(r, fallback, verb, p, last);
      assert forall j :: 0 <= j < |before| ==> before[j] == log[j];
      if FirstMatch(Dynamics(before, fallback, verb), p).None? { i := |log| - 1; }
    }
  }

  lemma LastAnswers(r: Registration, fallback: bool, verb: string, p: string, last: seq<Route>)
    requires last == if DynamicFor(r, fallback, verb) then [Route(r.pattern, Compiled(r.pattern), r.handler)] else []
    ensures FirstMatch(last, p) ==
            if Matches(r, fallback, verb, p) then Some(Handled(r.handler, Match(Compiled(r.pattern), p).value)) else None
  {
    if last != [] {
      assert last[0] == Route(r.pattern, Compiled(r.pattern), r.handler) && last[1..] == [];
      assert FirstMatch(last[1..], p).None?;
    }
  }

  /** Who answers in a stage. With a literal route for the path the last one of them does, without parameters; otherwise
      the first registered route whose pattern the path is an instance of, with the texts of its named segments; and
      nobody if there is none. */
  lemma WhoAnswers(log: seq<Registration>, fallback: bool, verb: string, p: string) returns (i: nat)
    requires Registered(log) && Cleaned(p)
    ensures match Stage(log, fallback, verb, p)
            case None => !HasLiteral(log, fallback, verb, p) && forall j :: 0 <= j < |log| ==> !Covered(log[j], fallback, verb, p)
            case Some(a) =>
              && i < |log| && a.Handled? && a.handler == log[i].handler
              && if HasLiteral(log, fallback, verb, p) then LastLiteralAt(log, fallback, verb, p, i) && a.params == map[]
                 else
                   && FirstCoveredAt(log, fallback, verb, p, i)
                   && forall texts :: StandsFor(Compiled(log[i].pattern), texts, p) ==> GivesParams(Compiled(log[i].pattern), texts, a.params)
  {
    i := FindLiteral(log, fallback, verb, p);
    if LastLiteral(log, fallback, verb, p).None? {
      i := FindDynamic(log, fallback, verb, p);
      forall j | 0 <= j < |log| ensures Matches(log[j], fallback, verb, p) <==> Covered(log[j], fallback, verb, p) {
        CoveredIff(log[j], fallback, verb, p);
      }
      if FirstMatch(Dynamics(log, fallback, verb), p).Some? {
        assert Matches(log[i], fallback, verb, p);
        assert log[i].pattern != "/" by { assert forall c :: c in "/" ==> c == '/'; }
        CompiledWellFormed(log[i].pattern);
        MatchByTexts(Compiled(log[i].pattern), p);
      }
    }
  }

  /** The methods named for a path are those with an ordinary route that is literally the path or has it as an instance. */
  lemma KnownIff(log: seq<Registration>, verb: string, p: string)
    requires Registered(log) && Cleaned(p)
    ensures Known(log, verb, p) <==> HasLiteral(log, false, verb, p) || exists j :: 0 <= j < |log| && Covered(log[j], false, verb, p)
  {
    var i := WhoAnswers(log, false, verb, p);
  }
}
