/** The fixed-window rate limiter, one client's requests taken one at a time. */
module RateWindow {
  import opened Options

  datatype Limits = Limits(rate: int, window: int)

  datatype Client = Client(windowStart: int, count: int)

  /** The client's entry, made on its first request. */
  function Entry(c: Option<Client>, now: int): Client {
    if c.Some? then c.value else Client(now, 0)
  }

  function Counted(limits: Limits, c: Client, now: int): Client {
    if now - c.windowStart >= limits.window then Client(now, 1) else c.(count := c.count + 1)
  }

  datatype Verdict = Verdict(admitted: bool, remaining: int)

  class RateLimiter {
    const limits: Limits
    var clients: map<string, Client>

    constructor (limits: Limits)
      ensures this.limits == limits && clients == map[]
    {
      this.limits := limits;
      clients := map[];
    }

    ghost function ClientOf(key: string): Option<Client>
      reads this
    {
      if key in clients then Some(clients[key]) else None
    }

    /** The client's entry is counted and no other changes. */
    method Handle(key: string, now: int) returns (v: Verdict)
      modifies this
      ensures ClientOf(key) == Some(Counted(limits, Entry(old(ClientOf(key)), now), now))
      ensures forall other :: other != key ==> ClientOf(other) == old(ClientOf(other))
      ensures v.admitted == (ClientOf(key).value.count <= limits.rate)
      ensures v.remaining >= 0 && (v.admitted ==> v.remaining == limits.rate - ClientOf(key).value.count)
    {
      if key !in clients {
        clients := clients[key := Client(now, 0)];
      }
      var c := clients[key];
      if now - c.windowStart >= limits.window {
        c := Client(now, 0);
      }
      c := c.(count := c.count + 1);
      clients := clients[key := c];
      var remaining := limits.rate - c.count;
      if remaining < 0 { remaining := 0; }
      return Verdict(!(c.count > limits.rate), remaining);
    }
  }

  // ---------------------------------------------------------------- a client's requests

  /** The client's entry after requests at these times. */
  function After(limits: Limits, times: seq<int>): Option<Client> {
    if times == [] then None
    else
      var now := times[|times| - 1];
      Some(Counted(limits, Entry(After(limits, times[..|times| - 1]), now), now))
  }

  /** The last of the requests is admitted. */
  predicate Admitted(limits: Limits, times: seq<int>)
    requires times != []
  {
    After(limits, times).value.count <= limits.rate
  }

  /** How many of the requests at times between `lo` and `hi` are admitted. */
  function AdmittedBetween(limits: Limits, times: seq<int>, lo: int, hi: int): nat {
    if times == [] then 0
    else
      AdmittedBetween(limits, times[..|times| - 1], lo, hi)
      + if lo <= times[|times| - 1] <= hi && Admitted(limits, times) then 1 else 0
  }

  predicate ClockRuns(times: seq<int>) {
    forall i, j :: 0 <= i < j < |times| ==> times[i] <= times[j]
  }

  predicate UpTo(times: seq<int>, t: int) {
    forall i :: 0 <= i < |times| ==> times[i] <= t
  }

  function AtLeastZero(n: int): nat {
    if n > 0 then n else 0
  }

  function Min(a: int, b: int): int {
    if a < b then a else b
  }

  /** A window holds all its requests: none is as late as its end. */
  lemma {:induction false} InsideWindow(limits: Limits, times: seq<int>)
    requires limits.window > 0 && times != []
    ensures times[|times| - 1] < After(limits, times).value.windowStart + limits.window
    ensures After(limits, times).value.count >= 1
    decreases |times|
  {
    if |times| > 1 {
      InsideWindow(limits, times[..|times| - 1]);
    }
  }

  lemma {:induction false} NoneThatLate(limits: Limits, times: seq<int>, lo: int, hi: int)
    requires forall i :: 0 <= i < |times| ==> times[i] < lo
    ensures AdmittedBetween(limits, times, lo, hi) == 0
    decreases |times|
  {
    if times != [] { NoneThatLate(limits, times[..|times| - 1], lo, hi); }
  }

  /** While the clock has not passed the interval: what the current window admits counts once if it began before the
      interval, and otherwise on top of one window's worth. */
  lemma {:induction false} UpToNow(limits: Limits, times: seq<int>, lo: int, hi: int)
    requires limits.window > 0 && ClockRuns(times) && times != [] && times[|times| - 1] <= hi == lo + limits.window
    ensures var c := After(limits, times).value;
            AdmittedBetween(limits, times, lo, hi)
            <= Min(c.count, AtLeastZero(limits.rate)) + if c.windowStart <= lo then 0 else AtLeastZero(limits.rate)
    decreases |times|
  {
    var before, now := times[..|times| - 1], times[|times| - 1];
    if before != [] {
      UpToNow(limits, before, lo, hi);
      InsideWindow(limits, before);
      if now - After(limits, before).value.windowStart >= limits.window && now <= lo {
        NoneThatLate(limits, before, lo, hi);
      }
    }
  }

  lemma {:induction false} LaterOnesDoNotCount(limits: Limits, times: seq<int>, lo: int, hi: int)
    requires limits.window > 0 && ClockRuns(times) && hi == lo + limits.window
    ensures AdmittedBetween(limits, times, lo, hi) <= 2 * AtLeastZero(limits.rate)
    decreases |times|
  {
    if times != [] {
      if times[|times| - 1] <= hi {
        UpToNow(limits, times, lo, hi);
      } else {
        LaterOnesDoNotCount(limits, times[..|times| - 1], lo, hi);
      }
    }
  }

  /** The rate is kept up to a factor of two on every interval as long as the window. */
  ghost predicate RateBound(limits: Limits) {
    forall times, lo :: ClockRuns(times) ==> WithinBound(limits, times, lo)
  }

  predicate WithinBound(limits: Limits, times: seq<int>, lo: int) {
    AdmittedBetween(limits, times, lo, lo + AtLeastZero(limits.window)) <= 2 * AtLeastZero(limits.rate)
  }

  /** `n` more requests at one time. */
  function Again(times: seq<int>, t: int, n: nat): seq<int> {
    if n == 0 then times else Again(times, t, n - 1) + [t]
  }

  /** One request more. */
  lemma OneMore(limits: Limits, times: seq<int>, now: int, lo: int, hi: int)
    ensures After(limits, times + [now]) == Some(Counted(limits, Entry(After(limits, times), now), now))
    ensures AdmittedBetween(limits, times + [now], lo, hi)
            == AdmittedBetween(limits, times, lo, hi)
               + if lo <= now <= hi && Counted(limits, Entry(After(limits, times), now), now).count <= limits.rate then 1 else 0
  {
    var all := times + [now];
    assert all[..|all| - 1] == times && all[|all| - 1] == now;
  }

  lemma NewWindow(limits: Limits, times: seq<int>, t: int)
    requires limits.window <= 0 && limits.rate >= 1
    requires After(limits, times).None? || After(limits, times).value.windowStart <= t
    ensures AdmittedBetween(limits, times + [t], t, t) == AdmittedBetween(limits, times, t, t) + 1
    ensures After(limits, times + [t]) == Some(Client(t, 1))
  {
    OneMore(limits, times, t, t, t);
  }

  lemma {:induction false} NoWindowNoLimit(limits: Limits, times: seq<int>, t: int, n: nat)
    requires limits.window <= 0 && limits.rate >= 1
    requires After(limits, times).None? || After(limits, times).value.windowStart <= t
    ensures AdmittedBetween(limits, Again(times, t, n), t, t) == AdmittedBetween(limits, times, t, t) + n
    ensures After(limits, Again(times, t, n)) == if n == 0 then After(limits, times) else Some(Client(t, 1))
    decreases n
  {
    if n > 0 {
      NoWindowNoLimit(limits, times, t, n - 1);
      NewWindow(limits, Again(times, t, n - 1), t);
    }
  }

  lemma {:induction false} NothingAdmitted(limits: Limits, times: seq<int>, lo: int, hi: int)
    requires limits.rate <= 0
    ensures AdmittedBetween(limits, times, lo, hi) == 0
    ensures times != [] ==> After(limits, times).value.count >= 1
    decreases |times|
  {
    if times != [] {
      var before := times[..|times| - 1];
      NothingAdmitted(limits, before, lo, hi);
      assert After(limits, before).None? <==> before == [];
    }
  }

  /** The bound holds exactly when the limiter has a window, or admits nothing at all. */
  lemma RateBoundIff(limits: Limits)
    ensures RateBound(limits) <==> limits.window > 0 || limits.rate <= 0
  {
    if limits.window > 0 {
      forall times, lo | ClockRuns(times) ensures WithinBound(limits, times, lo) {
        LaterOnesDoNotCount(limits, times, lo, lo + limits.window);
      }
    } else if limits.rate <= 0 {
      forall times, lo | ClockRuns(times) ensures WithinBound(limits, times, lo) {
        NothingAdmitted(limits, times, lo, lo + AtLeastZero(limits.window));
      }
    } else {
      var n := 2 * limits.rate + 1;
      var times := Again([], 0, n);
      NoWindowNoLimit(limits, [], 0, n);
      InOrder([], 0, n);
      assert !WithinBound(limits, times, 0);
    }
  }

  /** The window of a burst starts with its first request. */
  lemma BurstStep(limits: Limits, times: seq<int>, t: int, n: nat, lo: int, hi: int)
    requires limits.window > 0 && 0 < n <= limits.rate && lo <= t <= hi
    requires var c := After(limits, times);
             if n == 1 then c.None? || t - c.value.windowStart >= limits.window else c == Some(Client(t, n - 1))
    ensures AdmittedBetween(limits, times + [t], lo, hi) == AdmittedBetween(limits, times, lo, hi) + 1
    ensures After(limits, times + [t]) == Some(Client(t, n))
  {
    OneMore(limits, times, t, lo, hi);
  }

  lemma {:induction false} Burst(limits: Limits, times: seq<int>, t: int, n: nat, lo: int, hi: int)
    requires limits.window > 0 && n <= limits.rate && lo <= t <= hi
    requires After(limits, times).None? || t - After(limits, times).value.windowStart >= limits.window
    ensures AdmittedBetween(limits, Again(times, t, n), lo, hi) == AdmittedBetween(limits, times, lo, hi) + n
    ensures After(limits, Again(times, t, n)) == if n == 0 then After(limits, times) else Some(Client(t, n))
    decreases n
  {
    if n > 0 {
      Burst(limits, times, t, n - 1, lo, hi);
      BurstStep(limits, Again(times, t, n - 1), t, n, lo, hi);
    }
  }

  lemma {:induction false} InOrder(times: seq<int>, t: int, n: nat)
    requires ClockRuns(times) && UpTo(times, t)
    ensures ClockRuns(Again(times, t, n)) && UpTo(Again(times, t, n), t)
    decreases n
  {
    if n > 0 {
      InOrder(times, t, n - 1);
      OneInOrder(Again(times, t, n - 1), t);
    }
  }

  lemma OneInOrder(times: seq<int>, t: int)
    requires ClockRuns(times) && UpTo(times, t)
    ensures ClockRuns(times + [t]) && UpTo(times + [t], t)
  {
  }

  lemma FirstBurst(limits: Limits, lo: int, hi: int) returns (times: seq<int>)
    requires hi == lo + limits.window > lo && limits.rate >= 0
    ensures ClockRuns(times) && UpTo(times, hi)
    ensures After(limits, times).None? || hi - After(limits, times).value.windowStart >= limits.window
    ensures AdmittedBetween(limits, times, lo, hi) == limits.rate
  {
    Burst(limits, [], lo, limits.rate, lo, hi);
    InOrder([], lo, limits.rate);
    times := Again([], lo, limits.rate);
  }

  /** The factor two is reached on every interval: a full rate at the start of a window and another when it is over. */
  lemma BoundIsTight(limits: Limits, lo: int) returns (times: seq<int>)
    requires limits.window > 0 && limits.rate >= 0
    ensures ClockRuns(times) && AdmittedBetween(limits, times, lo, lo + limits.window) == 2 * limits.rate
  {
    var first := FirstBurst(limits, lo, lo + limits.window);
    Burst(limits, first, lo + limits.window, limits.rate, lo, lo + limits.window);
    InOrder(first, lo + limits.window, limits.rate);
    times := Again(first, lo + limits.window, limits.rate);
  }

  // ---------------------------------------------------------------- refusals

  lemma {:induction false} WiderInterval(limits: Limits, times: seq<int>, lo: int, lo': int, hi: int)
    requires lo' <= lo
    ensures AdmittedBetween(limits, times, lo', hi) >= AdmittedBetween(limits, times, lo, hi)
    decreases |times|
  {
    if times != [] { WiderInterval(limits, times[..|times| - 1], lo, lo', hi); }
  }

  /** Of the requests counted in the current window as many are admitted as the rate allows. */
  lemma {:induction false} WindowAdmits(limits: Limits, times: seq<int>, hi: int)
    requires limits.window > 0 && ClockRuns(times) && times != [] && times[|times| - 1] <= hi
    ensures var c := After(limits, times).value;
            AdmittedBetween(limits, times, c.windowStart, hi) >= Min(c.count, AtLeastZero(limits.rate)) && c.windowStart <= times[|times| - 1]
    decreases |times|
  {
    var before := times[..|times| - 1];
    if before != [] {
      WindowAdmits(limits, before, hi);
    }
  }

  /** A request is refused only when the requests admitted in the time of one window up to it have used up the rate. */
  lemma RefusedOnlyWhenFull(limits: Limits, times: seq<int>)
    requires limits.window > 0 && ClockRuns(times) && times != [] && !Admitted(limits, times)
    ensures var now := times[|times| - 1];
            AdmittedBetween(limits, times[..|times| - 1], now - limits.window + 1, now) >= AtLeastZero(limits.rate)
  {
    var now := times[|times| - 1];
    InsideWindow(limits, times);
    WindowAdmits(limits, times, now);
    WiderInterval(limits, times, After(limits, times).value.windowStart, now - limits.window + 1, now);
  }
}
