/** The circuit breaker of a host. */
module CircuitBreakers {
  import opened Options

  /** Why a request failed: no response, or one whose status counts as a failure. */
  datatype Cause = Network(error: string) | Http(status: int)

  datatype Circuit = Closed | Open | HalfOpen

  datatype Breaker = Breaker(circuit: Circuit, failures: int, lastAttempt: int, lastFailure: Option<Cause>)

  datatype Limits = Limits(maxFailures: int, resetTimeout: int)

  function Fresh(): Breaker {
    Breaker(Closed, 0, 0, None)
  }

  predicate Allows(b: Breaker, limits: Limits, now: int) {
    b.circuit.Open? ==> now - b.lastAttempt > limits.resetTimeout
  }

  function AfterAllow(b: Breaker, limits: Limits, now: int): Breaker {
    if b.circuit.Open? && Allows(b, limits, now) then b.(circuit := HalfOpen, failures := 0) else b
  }

  function AfterSuccess(b: Breaker): Breaker {
    b.(circuit := Closed, failures := 0, lastFailure := None)
  }

  function AfterFailure(b: Breaker, limits: Limits, cause: Cause, now: int): Breaker {
    var opens := b.circuit.HalfOpen? || b.failures + 1 >= limits.maxFailures;
    b.(failures := b.failures + 1, lastAttempt := now, lastFailure := Some(cause), circuit := if opens then Open else b.circuit)
  }

  /** A call of the breaker and who made it. */
  datatype Call = Asked(caller: nat, allowed: bool) | ToldSuccess(caller: nat) | ToldFailure(caller: nat, cause: Cause)

  /** The calls are taken one at a time; `now` is what the clock says during the call. `log` is a history value. */
  class CircuitBreaker {
    const limits: Limits
    var state: int
    var failures: int
    var lastAttempt: int
    var lastFailure: Option<Cause>
    ghost var log: seq<Call>

    predicate Valid()
      reads this
    {
      0 <= state <= 2
    }

    ghost function Value(): Breaker
      reads this
    {
      Breaker(if state == 0 then Closed else if state == 1 then Open else HalfOpen, failures, lastAttempt, lastFailure)
    }

    constructor (limits: Limits)
      ensures Valid() && Value() == Fresh() && this.limits == limits && log == []
    {
      this.limits := limits;
      state, failures, lastAttempt, lastFailure := 0, 0, 0, None;
      log := [];
    }

    method AllowRequest(now: int, ghost caller: nat) returns (allowed: bool)
      requires Valid()
      modifies this
      ensures Valid() && Value() == AfterAllow(old(Value()), limits, now)
      ensures allowed == Allows(old(Value()), limits, now)
      ensures log == old(log) + [Asked(caller, allowed)]
    {
      log := log + [Asked(caller, Allows(Value(), limits, now))];
      if state == 0 { return true; }
      if state == 1 {
        if now - lastAttempt > limits.resetTimeout {
          state := 2;
          failures := 0;
          return true;
        }
        return false;
      }
      return true;
    }

    method Success(ghost caller: nat)
      requires Valid()
      modifies this
      ensures Valid() && Value() == AfterSuccess(old(Value()))
      ensures log == old(log) + [ToldSuccess(caller)]
    {
      log := log + [ToldSuccess(caller)];
      lastFailure := None;
      failures := 0;
      state := 0;
    }

    method Failure(cause: Cause, now: int, ghost caller: nat)
      requires Valid()
      modifies this
      ensures Valid() && Value() == AfterFailure(old(Value()), limits, cause, now)
      ensures log == old(log) + [ToldFailure(caller, cause)]
    {
      log := log + [ToldFailure(caller, cause)];
      lastFailure := Some(cause);
      lastAttempt := now;
      failures := failures + 1;
      if state == 2 || failures >= limits.maxFailures {
        state := 1;
      }
    }
  }

  // ---------------------------------------------------------------- histories

  datatype Event = Allow(at: int) | Success(at: int) | Failure(at: int, cause: Cause)

  function After(b: Breaker, limits: Limits, e: Event): Breaker {
    match e
    case Allow(at) => AfterAllow(b, limits, at)
    case Success(_) => AfterSuccess(b)
    case Failure(at, cause) => AfterFailure(b, limits, cause, at)
  }

  function AfterAll(limits: Limits, events: seq<Event>): Breaker {
    if events == [] then Fresh() else After(AfterAll(limits, events[..|events| - 1]), limits, events[|events| - 1])
  }

  predicate ClockRuns(events: seq<Event>, now: int) {
    && (forall i, j :: 0 <= i < j < |events| ==> events[i].at <= events[j].at)
    && (forall i :: 0 <= i < |events| ==> events[i].at <= now)
  }

  /** The failures since the last success. */
  function Streak(events: seq<Event>): nat {
    if events == [] then 0
    else
      var before := Streak(events[..|events| - 1]);
      match events[|events| - 1]
      case Allow(_) => before
      case Success(_) => 0
      case Failure(_, _) => before + 1
  }

  /** The last failure since the last success. */
  function LastFailure(events: seq<Event>): Option<Event> {
    if events == [] then None
    else
      match events[|events| - 1]
      case Allow(_) => LastFailure(events[..|events| - 1])
      case Success(_) => None
      case Failure(at, cause) => Some(events[|events| - 1])
  }

  function Threshold(limits: Limits): int {
    if limits.maxFailures > 1 then limits.maxFailures else 1
  }

  /** What the fields say about the history. */
  ghost predicate Tracks(limits: Limits, events: seq<Event>, now: int) {
    var b, last := AfterAll(limits, events), LastFailure(events);
    && (b.circuit.Closed? <==> Streak(events) < Threshold(limits))
    && (b.circuit.Closed? ==> b.failures == Streak(events))
    && (last.None? <==> Streak(events) == 0)
    && (last.Some? ==> last.value.Failure? && b.lastAttempt == last.value.at && b.lastFailure == Some(last.value.cause) && b.lastAttempt <= now)
    && (last.None? ==> b.lastFailure.None?)
    && (b.circuit.HalfOpen? ==> now - b.lastAttempt > limits.resetTimeout)
  }

  lemma {:induction false} AlwaysTracks(limits: Limits, events: seq<Event>, now: int)
    requires ClockRuns(events, now)
    ensures Tracks(limits, events, now)
    decreases |events|
  {
    if events != [] {
      var before := events[..|events| - 1];
      AlwaysTracks(limits, before, events[|before|].at);
    }
  }

  /** Over every history: a request is let through exactly when the failures since the last success are fewer than the
      limit, or the last of them is longer ago than the reset time. A refusal has that failure as its cause. */
  lemma LetsThroughExactly(limits: Limits, events: seq<Event>, now: int)
    requires ClockRuns(events, now)
    ensures Allows(AfterAll(limits, events), limits, now)
            <==> Streak(events) < Threshold(limits)
                 || (LastFailure(events).Some? && now - LastFailure(events).value.at > limits.resetTimeout)
    ensures !Allows(AfterAll(limits, events), limits, now) ==>
              LastFailure(events).Some? && LastFailure(events).value.Failure?
              && AfterAll(limits, events).lastFailure == Some(LastFailure(events).value.cause)
  {
    AlwaysTracks(limits, events, now);
  }
}
