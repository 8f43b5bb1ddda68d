/** The HTTP client's retry loop: how often it sends, which bodies it sends, and which response bodies it closes. */
module HttpRetry {
  import opened Options
  import opened CircuitBreakers

  datatype Config = Config(maxRetries: int, randomDelay: bool, hasProxyFunc: bool)

  /** `hasBody` is false for no body and for the empty one. */
  datatype Request = Request(hasBody: bool, hasGetBody: bool)

  predicate CanReplay(r: Request) {
    !r.hasBody || r.hasGetBody
  }

  /** The body that goes out with an attempt: the request's own, or the copy made for that attempt. */
  datatype Sent = Nothing | Original | Copy(attempt: nat)

  datatype Response = Response(status: int, hasBody: bool)

  /** The response that is returned is named by its place among the ones obtained. */
  datatype Result =
    | Returned(response: nat)
    | ContextError
    | TransportError
    | BreakerOpen
    | CopyError

  /** A response that needs no retry. */
  predicate Acceptable(config: Config, r: Response) {
    r.status < 500 && r.status != 429 && (!(r.status == 401 || r.status == 403) || !config.hasProxyFunc)
  }

  function MaxAttempts(config: Config): nat {
    (if config.maxRetries > 0 then config.maxRetries else 0) + 1
  }

  predicate NoDuplicates(s: seq<nat>) {
    forall i, j :: 0 <= i < j < |s| ==> s[i] != s[j]
  }

  /** The request's context; it may end at any time. */
  class Context {
    var ended: bool

    constructor () {}

    method Ended() returns (b: bool)
      modifies this
      ensures b == ended && (old(ended) ==> ended)
    {
      var now: bool := *;
      ended := ended || now;
      return ended;
    }
  }

  /** Whether a copy of the request's body can be made. */
  method Copied() returns (b: bool)
  {
    b := *;
  }

  method Clock() returns (now: int)
  {
    now := *;
  }

  datatype Outcome = Failed(cause: Cause) | Got(response: Response)

  /** The transport sends a request. */
  method Transport() returns (o: Outcome)
  {
    var got, status, hasBody, error := *, *, *, *;
    o := if got then Got(Response(status, hasBody)) else Failed(Network(error));
  }

  /** One attempt: what the transport did, unless it failed with the context at its end. */
  datatype Attempted = Cut | Ran(outcome: Outcome)

  // ---------------------------------------------------------------- the breaker

  /** One caller's calls of the breaker, in order. */
  ghost function Own(log: seq<Call>, caller: nat): seq<Call> {
    if log == [] then []
    else Own(log[..|log| - 1], caller) + if log[|log| - 1].caller == caller then [log[|log| - 1]] else []
  }

  lemma {:induction false} OwnAppend(log: seq<Call>, more: seq<Call>, caller: nat)
    ensures Own(log + more, caller) == Own(log, caller) + Own(more, caller)
  {
    if more == [] {
      assert log + more == log;
    } else {
      var n := |more| - 1;
      OwnAppend(log, more[..n], caller);
      assert (log + more)[..|log| + n] == log + more[..n] && (log + more)[|log| + n] == more[n];
    }
  }

  lemma {:induction false} OwnNone(more: seq<Call>, caller: nat)
    requires forall c :: c in more ==> c.caller != caller
    ensures Own(more, caller) == []
  {
    if more != [] { OwnNone(more[..|more| - 1], caller); }
  }

  lemma OwnOne(log: seq<Call>, call: Call, caller: nat)
    ensures Own(log + [call], caller) == Own(log, caller) + if call.caller == caller then [call] else []
  {
    assert (log + [call])[..|log|] == log;
  }

  /** What an attempt tells the breaker: success for a response that needs no retry, failure for any other response and
      for a failed transport, nothing when the context has ended. */
  function Told(config: Config, caller: nat, a: Attempted): seq<Call> {
    match a
    case Cut => []
    case Ran(Failed(cause)) => [ToldFailure(caller, cause)]
    case Ran(Got(r)) => if Acceptable(config, r) then [ToldSuccess(caller)] else [ToldFailure(caller, Http(r.status))]
  }

  /** The calls that attempts make: each asks the breaker first, is let through, and tells it how it went. */
  ghost function Calls(config: Config, caller: nat, attempts: seq<Attempted>): seq<Call> {
    if attempts == [] then []
    else
      var n := |attempts| - 1;
      Calls(config, caller, attempts[..n]) + [Asked(caller, true)] + Told(config, caller, attempts[n])
  }

  /** The breaker has heard from the caller what is said, and nothing else. */
  ghost predicate Heard(breaker: CircuitBreaker?, caller: nat, calls: seq<Call>)
    reads breaker
  {
    breaker != null ==> Own(breaker.log, caller) == calls
  }

  /** What the caller asked after its last attempt. */
  predicate AskedLast(caller: nat, more: seq<Call>, result: Result) {
    match result
    case Returned(_) => more in [[], [Asked(caller, false)]]
    case TransportError => more in [[], [Asked(caller, false)]]
    case ContextError => more == []
    case BreakerOpen => more == [Asked(caller, false)]
    case CopyError => more == [Asked(caller, true)]
  }

  /** Other requests to the same host use the breaker between any two of this request's calls. */
  method Interfere(breaker: CircuitBreaker, ghost caller: nat)
    requires breaker.Valid()
    modifies breaker
    ensures breaker.Valid() && Own(breaker.log, caller) == old(Own(breaker.log, caller))
  {
    breaker.state := *;
    breaker.failures, breaker.lastAttempt, breaker.lastFailure := *, *, *;
    if !(0 <= breaker.state <= 2) { breaker.state := 0; }
    ghost var others: seq<Call> := *;
    if forall c :: c in others ==> c.caller != caller {
      OwnNone(others, caller);
      OwnAppend(breaker.log, others, caller);
      breaker.log := breaker.log + others;
    }
  }

  predicate IsOpen(breaker: CircuitBreaker?)
    reads breaker
  {
    breaker != null && breaker.state == 1
  }

  method Allowed(breaker: CircuitBreaker?, ghost caller: nat, ghost calls: seq<Call>) returns (allowed: bool)
    requires breaker != null ==> breaker.Valid()
    requires Heard(breaker, caller, calls)
    modifies breaker
    ensures breaker != null ==> breaker.Valid()
    ensures !allowed ==> IsOpen(breaker)
    ensures Heard(breaker, caller, calls + [Asked(caller, allowed)])
  {
    if breaker == null { return true; }
    Interfere(breaker, caller);
    var now := Clock();
    ghost var before := breaker.log;
    allowed := breaker.AllowRequest(now, caller);
    OwnOne(before, Asked(caller, allowed), caller);
  }

  /** The failure is counted; does it leave the breaker open? */
  method RecordFailure(breaker: CircuitBreaker?, cause: Cause, ghost caller: nat, ghost calls: seq<Call>) returns (open: bool)
    requires breaker != null ==> breaker.Valid()
    requires Heard(breaker, caller, calls)
    modifies breaker
    ensures breaker != null ==> breaker.Valid()
    ensures open <==> IsOpen(breaker)
    ensures Heard(breaker, caller, calls + [ToldFailure(caller, cause)])
  {
    if breaker == null { return false; }
    Interfere(breaker, caller);
    var now := Clock();
    ghost var before := breaker.log;
    breaker.Failure(cause, now, caller);
    OwnOne(before, ToldFailure(caller, cause), caller);
    Interfere(breaker, caller);
    open := breaker.state == 1;
  }

  method RecordSuccess(breaker: CircuitBreaker?, ghost caller: nat, ghost calls: seq<Call>)
    requires breaker != null ==> breaker.Valid()
    requires Heard(breaker, caller, calls)
    modifies breaker
    ensures breaker != null ==> breaker.Valid()
    ensures Heard(breaker, caller, calls + [ToldSuccess(caller)])
  {
    if breaker != null {
      Interfere(breaker, caller);
      ghost var before := breaker.log;
      breaker.Success(caller);
      OwnOne(before, ToldSuccess(caller), caller);
    }
  }

  // ---------------------------------------------------------------- attempts and responses

  /** The bodies that attempts send: the first one the request's own, every other one a copy made for it. */
  predicate BodiesSent(request: Request, sends: seq<Sent>) {
    forall k :: 0 <= k < |sends| ==> sends[k] == if !request.hasBody then Nothing else if k == 0 then Original else Copy(k)
  }

  /** Every obtained body is closed once, except those in `open`. */
  ghost predicate ClosedBut(responses: seq<Response>, closed: seq<nat>, open: set<nat>) {
    && NoDuplicates(closed)
    && (forall i: nat {:trigger i in closed} :: i in closed <==> i < |responses| && responses[i].hasBody && i !in open)
  }

  /** What a call has done: within the attempts allowed, replaying only what can be replayed. */
  ghost predicate Within(config: Config, request: Request, sends: seq<Sent>, responses: seq<Response>) {
    && |responses| <= |sends| <= MaxAttempts(config)
    && (!CanReplay(request) ==> |sends| <= 1)
    && BodiesSent(request, sends)
  }

  /** The call did not stop early: it returns an acceptable response, or it has used its attempts, or it may not replay
      the request, or the breaker is open. */
  ghost predicate NotEarly(config: Config, request: Request, open: bool, ended: bool, sends: seq<Sent>, responses: seq<Response>, result: Result) {
    match result
    case Returned(i) =>
      i == |responses| - 1 && (Acceptable(config, responses[i]) || |sends| == MaxAttempts(config) || !CanReplay(request) || open)
    case TransportError => |sends| == MaxAttempts(config) || !CanReplay(request) || open
    case BreakerOpen => open && sends == []
    case ContextError => ended
    case CopyError => |sends| >= 1 && request.hasBody && request.hasGetBody
  }

  /** No response that needs no retry is given up. */
  ghost predicate Kept(config: Config, responses: seq<Response>, result: Option<Result>) {
    forall i :: 0 <= i < |responses| && Acceptable(config, responses[i]) ==> result == Some(Returned(i))
  }

  lemma CloseOne(responses: seq<Response>, closed: seq<nat>, open: set<nat>, i: nat)
    requires i < |responses| && i !in open && ClosedBut(responses, closed, open + {i})
    ensures ClosedBut(responses, if responses[i].hasBody then closed + [i] else closed, open)
  {
    var closed' := if responses[i].hasBody then closed + [i] else closed;
    assert i !in closed;
    forall j: nat ensures j in closed' <==> j < |responses| && responses[j].hasBody && j !in open {
      assert j in closed' <==> j in closed || (j == i && responses[i].hasBody);
    }
  }

  lemma OneObtained(responses: seq<Response>, closed: seq<nat>, response: Response)
    requires ClosedBut(responses, closed, {})
    ensures ClosedBut(responses + [response], closed, {|responses|})
  {
  }

  function Held(last: Option<nat>): set<nat> {
    if last.Some? then {last.value} else {}
  }

  function Handed(result: Option<Result>): set<nat> {
    if result.Some? && result.value.Returned? then {result.value.response} else {}
  }

  /** The responses that attempts got, in order. */
  function Obtained(attempts: seq<Attempted>): seq<Response> {
    if attempts == [] then []
    else
      var last := attempts[|attempts| - 1];
      Obtained(attempts[..|attempts| - 1]) + if last.Ran? && last.outcome.Got? then [last.outcome.response] else []
  }

  lemma ObtainedNext(attempts: seq<Attempted>, a: Attempted)
    ensures Obtained(attempts + [a]) == Obtained(attempts) + if a.Ran? && a.outcome.Got? then [a.outcome.response] else []
  {
    assert (attempts + [a])[..|attempts|] == attempts;
  }

  lemma CallsNext(config: Config, caller: nat, attempts: seq<Attempted>, a: Attempted)
    ensures Calls(config, caller, attempts + [a]) == Calls(config, caller, attempts) + [Asked(caller, true)] + Told(config, caller, a)
  {
    assert (attempts + [a])[..|attempts|] == attempts;
  }

  predicate GotLast(attempts: seq<Attempted>) {
    attempts != [] && attempts[|attempts| - 1].Ran? && attempts[|attempts| - 1].outcome.Got?
  }

  predicate FailedLast(attempts: seq<Attempted>) {
    attempts != [] && attempts[|attempts| - 1].Ran? && attempts[|attempts| - 1].outcome.Failed?
  }

  /** The result is what the last attempt led to; only the last one can be cut short, and then the context has ended. */
  predicate Leads(attempts: seq<Attempted>, result: Option<Result>) {
    && (forall k :: 0 <= k < |attempts| && attempts[k].Cut? ==> k == |attempts| - 1 && result == Some(ContextError))
    && match result
       case Some(Returned(_)) => GotLast(attempts)
       case Some(TransportError) => FailedLast(attempts)
       case Some(BreakerOpen) => attempts == []
       case _ => true
  }

  /** Between two attempts: every attempt so far has failed or has got a response that needs a retry. */
  ghost predicate Retrying(config: Config, request: Request, retriesLeft: int, sends: seq<Sent>, responses: seq<Response>, attempts: seq<Attempted>) {
    && |responses| <= |sends| == |attempts| < MaxAttempts(config)
    && Leads(attempts, None) && Obtained(attempts) == responses
    && retriesLeft == config.maxRetries - |sends| && (|sends| > 0 ==> CanReplay(request))
    && BodiesSent(request, sends)
    && Kept(config, responses, None)
  }

  /** Everything between two attempts. */
  ghost predicate Between(config: Config, request: Request, retriesLeft: int, lastError: bool, sends: seq<Sent>, responses: seq<Response>,
                          closed: seq<nat>, last: Option<nat>, attempts: seq<Attempted>) {
    && Retrying(config, request, retriesLeft, sends, responses, attempts)
    && (last.Some? ==> last.value == |responses| - 1)
    && (last.Some? <==> GotLast(attempts)) && (lastError <==> FailedLast(attempts))
    && ClosedBut(responses, closed, Held(last))
  }

  /** What a call may end with. */
  ghost predicate Done(config: Config, request: Request, open: bool, ended: bool, sends: seq<Sent>, responses: seq<Response>,
                       attempts: seq<Attempted>, result: Result) {
    && Within(config, request, sends, responses)
    && NotEarly(config, request, open, ended, sends, responses, result)
    && Kept(config, responses, Some(result))
    && |attempts| == |sends| && Leads(attempts, Some(result)) && Obtained(attempts) == responses
  }

  /** One request and what it leads to; `stop` is the result if the call ends with it. */
  method Attempt(config: Config, request: Request, breaker: CircuitBreaker?, context: Context, retriesLeft: int, attempt: nat, body: Sent,
                 ghost sends: seq<Sent>, responses: seq<Response>, ghost closed: seq<nat>,
                 ghost attempts: seq<Attempted>, ghost caller: nat, ghost calls: seq<Call>)
    returns (stop: Option<Result>, responses': seq<Response>, last: Option<nat>, ghost attempted: Attempted)
    requires breaker != null ==> breaker.Valid()
    requires Retrying(config, request, retriesLeft, sends, responses, attempts) && attempt == |sends|
    requires BodiesSent(request, sends + [body]) && ClosedBut(responses, closed, {})
    requires Heard(breaker, caller, calls)
    modifies breaker, context
    ensures breaker != null ==> breaker.Valid()
    ensures stop.None? ==> Between(config, request, retriesLeft - 1, last.None?, sends + [body], responses', closed, last, attempts + [attempted])
    ensures stop.Some? ==> Done(config, request, IsOpen(breaker), context.ended, sends + [body], responses', attempts + [attempted], stop.value)
    ensures stop.Some? ==> last.None? && ClosedBut(responses', closed, Handed(stop)) && AskedLast(caller, [], stop.value)
    ensures stop == Some(ContextError) <==> attempted.Cut?
    ensures Heard(breaker, caller, calls + Told(config, caller, attempted))
  {
    responses', last := responses, None;
    var outcome := Transport();
    attempted := Ran(outcome);
    if outcome.Failed? {
      var ended := context.Ended();
      if ended {
        attempted := Cut;
        ObtainedNext(attempts, attempted);
        return Some(ContextError), responses', last, attempted;
      }
      var open := RecordFailure(breaker, outcome.cause, caller, calls);
      stop := if retriesLeft <= 0 || !CanReplay(request) || open then Some(TransportError) else None;
    } else {
      var response := outcome.response;
      OneObtained(responses, closed, response);
      responses' := responses + [response];
      if Acceptable(config, response) {
        RecordSuccess(breaker, caller, calls);
        ObtainedNext(attempts, attempted);
        return Some(Returned(|responses|)), responses', last, attempted;
      }
      var open := RecordFailure(breaker, Http(response.status), caller, calls);
      if retriesLeft <= 0 || !CanReplay(request) || open {
        ObtainedNext(attempts, attempted);
        return Some(Returned(|responses|)), responses', last, attempted;
      }
      stop, last := None, Some(|responses|);
    }
    ObtainedNext(attempts, attempted);
  }

  /** Up to the next attempt: the breaker is asked, the response held so far is closed, the body is taken or copied. The
      call ends here if the breaker refuses or the copy fails. */
  method Prepare(request: Request, breaker: CircuitBreaker?, attempt: nat, lastError: bool, responses: seq<Response>, closed: seq<nat>,
                 last: Option<nat>, ghost caller: nat, ghost calls: seq<Call>)
    returns (stop: Option<Result>, body: Sent, closed': seq<nat>, ghost asked: seq<Call>)
    requires breaker != null ==> breaker.Valid()
    requires last.Some? ==> last.value < |responses|
    requires ClosedBut(responses, closed, Held(last)) && Heard(breaker, caller, calls)
    modifies breaker
    ensures breaker != null ==> breaker.Valid()
    ensures ClosedBut(responses, closed', Handed(stop)) && Heard(breaker, caller, calls + asked)
    ensures stop.None? ==> asked == [Asked(caller, true)] && body == if !request.hasBody then Nothing else if attempt == 0 then Original else Copy(attempt)
    ensures stop.Some? ==> AskedLast(caller, asked, stop.value)
    ensures stop.Some? ==>
              if stop.value.CopyError? then attempt > 0 && request.hasBody
              else IsOpen(breaker) && stop.value == if last.Some? then Returned(last.value) else if lastError then TransportError else BreakerOpen
  {
    closed', body := closed, if request.hasBody then Original else Nothing;
    var allowed := Allowed(breaker, caller, calls);
    asked := [Asked(caller, allowed)];
    if !allowed {
      return Some(if last.Some? then Returned(last.value) else if lastError then TransportError else BreakerOpen), body, closed', asked;
    }
    if last.Some? {
      CloseOne(responses, closed, {}, last.value);
      if responses[last.value].hasBody { closed' := closed + [last.value]; }
    }
    if attempt > 0 && request.hasBody {
      var copied := Copied();
      if !copied { return Some(CopyError), body, closed', asked; }
      body := Copy(attempt);
    }
    stop := None;
  }

  lemma NoAttempts(attempts: seq<Attempted>)
    requires Leads(attempts, None) && !GotLast(attempts) && !FailedLast(attempts)
    ensures attempts == []
  {
  }

  lemma StopsBefore(config: Config, request: Request, retriesLeft: int, lastError: bool, sends: seq<Sent>, responses: seq<Response>,
                    closed: seq<nat>, last: Option<nat>, attempts: seq<Attempted>, open: bool, ended: bool, result: Result)
    requires Between(config, request, retriesLeft, lastError, sends, responses, closed, last, attempts)
    requires match result
             case ContextError => ended
             case CopyError => |sends| > 0 && request.hasBody
             case _ => open && result == if last.Some? then Returned(last.value) else if lastError then TransportError else BreakerOpen
    ensures Done(config, request, open, ended, sends, responses, attempts, result)
  {
    if result.BreakerOpen? { NoAttempts(attempts); }
  }

  /** One round of the loop: preparing and one attempt. */
  method Round(config: Config, request: Request, breaker: CircuitBreaker?, context: Context, retriesLeft: int, lastError: bool, sends: seq<Sent>,
               responses: seq<Response>, closed: seq<nat>, last: Option<nat>, ghost attempts: seq<Attempted>, ghost caller: nat, ghost calls: seq<Call>)
    returns (stop: Option<Result>, sends': seq<Sent>, responses': seq<Response>, closed': seq<nat>, last': Option<nat>,
             ghost attempts': seq<Attempted>, ghost more: seq<Call>)
    requires breaker != null ==> breaker.Valid()
    requires Between(config, request, retriesLeft, lastError, sends, responses, closed, last, attempts)
    requires Heard(breaker, caller, calls + Calls(config, caller, attempts))
    modifies breaker, context
    ensures breaker != null ==> breaker.Valid()
    ensures Heard(breaker, caller, calls + Calls(config, caller, attempts') + more)
    ensures stop.None? ==> more == [] && |sends'| == |sends| + 1
                           && Between(config, request, retriesLeft - 1, last'.None?, sends', responses', closed', last', attempts')
    ensures stop.Some? ==> Done(config, request, IsOpen(breaker), context.ended, sends', responses', attempts', stop.value)
                           && ClosedBut(responses', closed', Handed(stop)) && AskedLast(caller, more, stop.value)
  {
    var attempt, body := |sends|, Nothing;
    sends', responses', last', attempts' := sends, responses, last, attempts;
    ghost var said := calls + Calls(config, caller, attempts);
    stop, body, closed', more := Prepare(request, breaker, attempt, lastError, responses, closed, last, caller, said);
    if stop.Some? {
      StopsBefore(config, request, retriesLeft, lastError, sends, responses, closed, last, attempts, IsOpen(breaker), context.ended, stop.value);
      return;
    }
    ghost var attempted;
    stop, responses', last', attempted := Attempt(config, request, breaker, context, retriesLeft, attempt, body, sends, responses, closed',
                                                  attempts, caller, said + more);
    CallsNext(config, caller, attempts, attempted);
    sends', attempts' := sends + [body], attempts + [attempted];
    Spoken(calls, Calls(config, caller, attempts), more, Told(config, caller, attempted));
    more := [];
  }

  lemma Spoken(calls: seq<Call>, before: seq<Call>, asked: seq<Call>, told: seq<Call>)
    ensures calls + before + asked + told == calls + (before + asked + told) + []
  {
  }

  /** The loop, without the deferred close: `last` is the response still held when it ends. */
  method Attempts(config: Config, request: Request, breaker: CircuitBreaker?, context: Context, ghost caller: nat, ghost calls: seq<Call>)
    returns (result: Result, sends: seq<Sent>, responses: seq<Response>, closed: seq<nat>, last: Option<nat>,
             ghost attempts: seq<Attempted>, ghost more: seq<Call>)
    requires breaker != null ==> breaker.Valid()
    requires Heard(breaker, caller, calls)
    modifies breaker, context
    ensures breaker != null ==> breaker.Valid()
    ensures Done(config, request, IsOpen(breaker), context.ended, sends, responses, attempts, result)
    ensures last.Some? ==> last.value < |responses| && result != Returned(last.value)
    ensures ClosedBut(responses, closed, Held(last) + Handed(Some(result)))
    ensures Heard(breaker, caller, calls + Calls(config, caller, attempts) + more) && AskedLast(caller, more, result)
  {
    sends, responses, closed, last := [], [], [], None;
    attempts, more := [], [];
    var retriesLeft := config.maxRetries;
    var lastError := false;
    assert calls + Calls(config, caller, attempts) + more == calls;
    while true
      invariant breaker != null ==> breaker.Valid()
      invariant Between(config, request, retriesLeft, lastError, sends, responses, closed, last, attempts)
      invariant Heard(breaker, caller, calls + Calls(config, caller, attempts) + more) && more == []
      decreases MaxAttempts(config) - |sends|
    {
      var ended := context.Ended();
      if ended {
        StopsBefore(config, request, retriesLeft, lastError, sends, responses, closed, last, attempts, IsOpen(breaker), true, ContextError);
        return ContextError, sends, responses, closed, last, attempts, more;
      }
      assert calls + Calls(config, caller, attempts) + more == calls + Calls(config, caller, attempts);
      var stop;
      stop, sends, responses, closed, last, attempts, more :=
        Round(config, request, breaker, context, retriesLeft, lastError, sends, responses, closed, last, attempts, caller, calls);
      if stop.Some? { return stop.value, sends, responses, closed, None, attempts, more; }
      lastError := last.None?;
      retriesLeft := retriesLeft - 1;
      ended := context.Ended();
      if ended {
        StopsBefore(config, request, retriesLeft, lastError, sends, responses, closed, last, attempts, IsOpen(breaker), true, ContextError);
        return ContextError, sends, responses, closed, last, attempts, more;
      }
    }
  }

  /** At most the retries allowed and one more attempt; a body that cannot be replayed is sent at most once, and no body
      twice; every response body obtained is closed exactly once, except the returned one, which is left open. The
      breaker is asked before every attempt and told how each one went, in order. */
  method Do(config: Config, request: Request, breaker: CircuitBreaker?, context: Context, ghost caller: nat)
    returns (result: Result, sends: seq<Sent>, responses: seq<Response>, closed: seq<nat>,
             ghost attempts: seq<Attempted>, ghost more: seq<Call>)
    requires breaker != null ==> breaker.Valid()
    modifies breaker, context
    ensures breaker != null ==> breaker.Valid()
    ensures Within(config, request, sends, responses)
    ensures NotEarly(config, request, IsOpen(breaker), context.ended, sends, responses, result)
    ensures Kept(config, responses, Some(result))
    ensures ClosedBut(responses, closed, Handed(Some(result)))
    ensures |attempts| == |sends| && Leads(attempts, Some(result)) && Obtained(attempts) == responses
    ensures breaker != null ==>
              Own(breaker.log, caller) == old(Own(breaker.log, caller)) + Calls(config, caller, attempts) + more && AskedLast(caller, more, result)
  {
    attempts, more := [], [];
    if config.randomDelay {
      var ended := context.Ended();
      if ended { return ContextError, [], [], [], attempts, more; }
    }
    var last;
    ghost var before := if breaker == null then [] else Own(breaker.log, caller);
    result, sends, responses, closed, last, attempts, more := Attempts(config, request, breaker, context, caller, before);
    if last.Some? {
      CloseOne(responses, closed, Handed(Some(result)), last.value);
      assert Held(last) + Handed(Some(result)) == Handed(Some(result)) + {last.value};
      if responses[last.value].hasBody { closed := closed + [last.value]; }
    }
  }
}
