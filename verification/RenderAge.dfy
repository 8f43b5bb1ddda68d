/** How old a result can be when it is served: a copy from the shared level is stamped anew in the local one. */
module RenderAge {
  import opened Options
  import opened RenderCaches
  import opened TagProtocol

  /** For how many seconds a copy serves a request, fresh or stale. */
  function Lifetime(req: Request): int {
    if req.swr > 0 then req.ttl + req.swr else req.ttl
  }

  /** No request allows more than `limit` seconds. */
  predicate Allows(step: Step, limit: int) {
    match step
    case Serve(_, req, _, _, _) => Lifetime(req) <= limit
    case Flight(_, req, _, _, _, _) => Lifetime(req) <= limit
    case _ => true
  }

  ghost predicate AllAllow(steps: seq<Step>, limit: int) {
    forall i :: 0 <= i < |steps| ==> Allows(steps[i], limit)
  }

  /** The clock reading of a step that has one. */
  function TimeOf(step: Step): int {
    match step
    case Serve(_, _, now, _, _) => now
    case Flight(_, _, now, _, _, _) => now
    case Revalidate(_, _, now, _, _) => now
    case StoreContent(_, _, now, _, _) => now
    case _ => 0
  }

  /** When a result was rendered. */
  function RenderedAt(steps: seq<Step>, r: RenderResult): int
    requires r.rendered < |steps|
  {
    TimeOf(steps[r.rendered])
  }

  /** A local copy is at most one lifetime younger than its result. */
  ghost predicate StampedLocal(steps: seq<Step>, e: CacheEntry, limit: int) {
    e.result.rendered < |steps| && e.stored - RenderedAt(steps, e.result) < limit * SECOND
  }

  /** A shared copy is as old as its result. */
  ghost predicate StampedShared(steps: seq<Step>, e: SharedEntry) {
    e.result.rendered < |steps| && e.stored == RenderedAt(steps, e.result)
  }

  ghost predicate CacheStamped(l1: Cache, steps: seq<Step>, limit: int) {
    forall k :: k in l1.items ==> StampedLocal(steps, l1.items[k], limit)
  }

  ghost predicate Stamped(w: World, steps: seq<Step>, limit: int) {
    && (forall p :: p in w.processes ==> CacheStamped(w.processes[p].l1, steps, limit))
    && (w.shared.Some? ==> forall k :: k in w.shared.value.routes ==> StampedShared(steps, w.shared.value.routes[k]))
  }

  lemma StampedTouch(w: World, steps: seq<Step>, limit: int, touched: set<string>)
    requires Stamped(w, steps, limit)
    ensures Stamped(w.(shared := Touch(w.shared, touched)), steps, limit)
  {
  }

  lemma StampedStore(w: World, steps: seq<Step>, limit: int, pid: nat, key: string, r: RenderResult, now: int, chance: Chance)
    requires Stamped(w, steps, limit) && pid in w.processes
    requires r.rendered < |steps| && now - RenderedAt(steps, r) < limit * SECOND
    ensures Stamped(StoreLocal(w, pid, key, r, now, chance), steps, limit)
  {
    var w' := StoreLocal(w, pid, key, r, now, chance);
    assert CacheStamped(w.processes[pid].l1, steps, limit);
    assert CacheStamped(w'.processes[pid].l1, steps, limit);
  }

  lemma StampedBoth(w: World, steps: seq<Step>, limit: int, pid: nat, req: Request, made: Option<RenderResult>, now: int, chance: Chance)
    requires Stamped(w, steps, limit) && pid in w.processes && limit > 0
    requires made.Some? ==> made.value.rendered < |steps| && now == RenderedAt(steps, made.value)
    ensures Stamped(StoreBoth(w, pid, req, made, now, chance), steps, limit)
  {
    if made.Some? { StampedStore(w, steps, limit, pid, req.key, made.value, now, chance); }
  }

  lemma StampedSame(w: World, w': World, steps: seq<Step>, limit: int)
    requires Stamped(w, steps, limit)
    requires w'.shared == w.shared && w'.processes.Keys == w.processes.Keys
    requires forall p :: p in w.processes ==> w'.processes[p].l1 == w.processes[p].l1
    ensures Stamped(w', steps, limit)
  {
  }

  lemma StampedServe(w: World, w': World, step: Step, steps: seq<Step>, limit: int)
    requires step.Serve? && Next(w, step, w') && Stamped(w, steps, limit) && Allows(step, limit)
    ensures Stamped(w', steps, limit)
  {
    var Serve(pid, req, now, outcome, chance) := step;
    var w1 := w.(shared := Touch(w.shared, chance.touched));
    StampedTouch(w, steps, limit, chance.touched);
    if outcome.SharedHit? || outcome.SharedStale? {
      SharedAge(w, steps, limit, pid, req, now);
      StampedStore(w1, steps, limit, pid, req.key, outcome.result, now, chance);
      StampedSame(StoreLocal(w1, pid, req.key, outcome.result, now, chance), w', steps, limit);
    } else {
      StampedSame(w1, w', steps, limit);
    }
  }

  /** A copy found at the shared level is not older than the request allows. */
  lemma SharedAge(w: World, steps: seq<Step>, limit: int, pid: nat, req: Request, now: int)
    requires Stamped(w, steps, limit) && pid in w.processes && Lifetime(req) <= limit
    ensures var o := Lookup(w.shared, w.processes[pid], req, now);
            o.SharedHit? || o.SharedStale? ==> o.result.rendered < |steps| && now - RenderedAt(steps, o.result) < limit * SECOND
  {
  }

  /** One found in the local cache can have had its whole lifetime before it was copied there. */
  lemma LocalAge(w: World, steps: seq<Step>, limit: int, pid: nat, req: Request, now: int)
    requires Stamped(w, steps, limit) && pid in w.processes && Lifetime(req) <= limit
    ensures var o := LookupLocal(w.shared, w.processes[pid], req, now);
            !o.Miss? ==> o.result.rendered < |steps| && now - RenderedAt(steps, o.result) <= 2 * limit * SECOND - 2
  {
    assert CacheStamped(w.processes[pid].l1, steps, limit);
  }

  lemma StampedNext(w: World, w': World, steps: seq<Step>, i: nat, limit: int)
    requires i < |steps| && w.clock == i && Next(w, steps[i], w')
    requires Stamped(w, steps, limit) && Allows(steps[i], limit) && limit > 0
    ensures Stamped(w', steps, limit)
  {
    match steps[i]
    case Serve(_, _, _, _, _) => StampedServe(w, w', steps[i], steps, limit);
    case Flight(pid, req, now, _, made, chance) =>
      StampedTouch(w, steps, limit, chance.touched);
      StampedBoth(w.(shared := Touch(w.shared, chance.touched)), steps, limit, pid, req, made, now, chance);
    case Revalidate(pid, req, now, made, chance) => StampedBoth(w, steps, limit, pid, req, made, now, chance);
    case StoreContent(pid, key, now, made, chance) => StampedStore(w, steps, limit, pid, key, made.value, now, chance);
    case _ => StampedOther(w, w', steps, i, limit);
  }

  lemma StampedOther(w: World, w': World, steps: seq<Step>, i: nat, limit: int)
    requires i < |steps| && Next(w, steps[i], w') && Stamped(w, steps, limit)
    requires steps[i].Attach? || steps[i].DropLocal? || steps[i].Bump? || steps[i].Lose?
    ensures Stamped(w', steps, limit)
  {
    if steps[i].Attach? || steps[i].DropLocal? {
      var l1, l1' := w.processes[steps[i].pid].l1, w'.processes[steps[i].pid].l1;
      assert CacheStamped(l1, steps, limit);
      assert forall k :: k in l1'.items ==> k in l1.items && l1'.items[k].result == l1.items[k].result && l1'.items[k].stored == l1.items[k].stored;
      assert CacheStamped(l1', steps, limit);
    }
  }

  lemma {:induction false} StampedRun(ws: seq<World>, steps: seq<Step>, i: nat, limit: int)
    requires Run(ws, steps) && i < |ws| && AllAllow(steps, limit) && limit > 0
    ensures Stamped(ws[i], steps, limit)
  {
    if i > 0 {
      StampedRun(ws, steps, i - 1, limit);
      SoundRun(ws, steps, i - 1);
      assert NextAt(ws, steps, i - 1);
      StampedNext(ws[i - 1], ws[i], steps, i - 1, limit);
    }
  }

  /** What is served was rendered less than twice the longest lifetime ago. */
  lemma AgeBound(ws: seq<World>, steps: seq<Step>, i: nat, limit: int, q: nat, r: RenderResult)
    requires Run(ws, steps) && AllAllow(steps, limit) && limit > 0
    requires i < |steps| && Served(steps[i]) == Some((q, r))
    ensures r.rendered <= i && Renders(steps[r.rendered], r)
    ensures TimeOf(steps[i]) - RenderedAt(steps, r) <= 2 * limit * SECOND - 2
  {
    StampedRun(ws, steps, i, limit);
    SoundRun(ws, steps, i);
    KnownRun(ws, steps, i);
    assert NextAt(ws, steps, i);
    ServedKnown(ws[i], ws[i + 1], steps, i, q, r);
    match steps[i]
    case Serve(pid, req, now, _, _) =>
      LocalAge(ws[i], steps, limit, pid, req, now);
      SharedAge(ws[i], steps, limit, pid, req, now);
    case Flight(pid, req, now, found, _, _) =>
      if found.Some? { LocalAge(ws[i], steps, limit, pid, req, now); }
  }

  // ---------------------------------------------------------------- the bound is reached

  const PLAIN: RenderResult := RenderResult("", [], 0)
  const QUIET: Chance := Chance(None, true, {})

  ghost function Two(first: Cache, second: Cache, routes: map<string, SharedEntry>, clock: nat): World {
    World(map[0 := Process(first, 2, {}), 1 := Process(second, 2, {})], Some(Shared(map[], routes, {"0"})), clock, map[])
  }

  ghost function Copied(now: int): Cache {
    AfterSet(EMPTY, None, "k", PLAIN, map[], now)
  }

  function Page(seconds: int): Request {
    Request("k", "s", seconds, 0)
  }

  lemma Untagged(s: Shared)
    ensures Tags(PLAIN) == {} && VersionsFor(Some(s), PLAIN) == map[] && Defaulted(s, {}) == s
  {
  }

  lemma RendersFirst(seconds: int)
    ensures Next(Two(EMPTY, EMPTY, map[], 0), Flight(0, Page(seconds), 0, None, Some(PLAIN), QUIET),
                 Two(Copied(0), EMPTY, map["s" := SharedEntry(PLAIN, 0, map[])], 1))
  {
    var w, w' := Two(EMPTY, EMPTY, map[], 0), Two(Copied(0), EMPTY, map["s" := SharedEntry(PLAIN, 0, map[])], 1);
    Untagged(w.shared.value);
    assert Touch(w.shared, {}) == w.shared;
    assert StoreLocal(w, 0, "k", PLAIN, 0, QUIET).processes == w'.processes;
    assert StoreBoth(w, 0, Page(seconds), Some(PLAIN), 0, QUIET) == w'.(clock := 0);
  }

  lemma CopiesThen(seconds: int, now: int)
    requires 0 <= now < seconds * SECOND
    ensures Next(Two(Copied(0), EMPTY, map["s" := SharedEntry(PLAIN, 0, map[])], 1), Serve(1, Page(seconds), now, SharedHit(PLAIN), QUIET),
                 Two(Copied(0), Copied(now), map["s" := SharedEntry(PLAIN, 0, map[])], 2))
  {
    var w, w' := Two(Copied(0), EMPTY, map["s" := SharedEntry(PLAIN, 0, map[])], 1), Two(Copied(0), Copied(now), map["s" := SharedEntry(PLAIN, 0, map[])], 2);
    Untagged(w.shared.value);
    assert Touch(w.shared, {}) == w.shared;
    assert StoreLocal(w, 1, "k", PLAIN, now, QUIET).processes == w'.processes;
  }

  lemma HitsLast(seconds: int, copied: int, now: int)
    requires 0 <= now - copied < seconds * SECOND
    ensures var routes := map["s" := SharedEntry(PLAIN, 0, map[])];
            Next(Two(Copied(0), Copied(copied), routes, 2), Serve(1, Page(seconds), now, Hit(PLAIN), QUIET), Two(Copied(0), Copied(copied), routes, 3))
  {
    var w := Two(Copied(0), Copied(copied), map["s" := SharedEntry(PLAIN, 0, map[])], 2);
    Untagged(w.shared.value);
    assert Touch(w.shared, {}) == w.shared;
    assert Copied(copied).items == map["k" := CacheEntry(PLAIN, None, copied, map[])];
  }

  lemma CopiedRun(seconds: int, late: int) returns (ws: seq<World>, steps: seq<Step>)
    requires 0 <= late < seconds * SECOND
    ensures Run(ws, steps) && ws[|steps|] == Two(Copied(0), Copied(late), map["s" := SharedEntry(PLAIN, 0, map[])], 2)
    ensures steps == [Flight(0, Page(seconds), 0, None, Some(PLAIN), QUIET), Serve(1, Page(seconds), late, SharedHit(PLAIN), QUIET)]
  {
    var routes := map["s" := SharedEntry(PLAIN, 0, map[])];
    var w0, w1 := Two(EMPTY, EMPTY, map[], 0), Two(Copied(0), EMPTY, routes, 1);
    RendersFirst(seconds);
    CopiesThen(seconds, late);
    ws, steps := OneMore([w0], [], w0, Flight(0, Page(seconds), 0, None, Some(PLAIN), QUIET), w1);
    ws, steps := OneMore(ws, steps, w1, Serve(1, Page(seconds), late, SharedHit(PLAIN), QUIET), Two(Copied(0), Copied(late), routes, 2));
  }

  /** For every lifetime, one process renders, another copies the result at the last moment and serves its copy at the
      last moment: the result is then as old as the bound allows. */
  lemma AgeReached(seconds: int) returns (ws: seq<World>, steps: seq<Step>)
    requires seconds > 0
    ensures Run(ws, steps) && |steps| == 3 && AllAllow(steps, seconds)
    ensures Served(steps[2]) == Some((1, PLAIN)) && TimeOf(steps[2]) - RenderedAt(steps, PLAIN) == 2 * seconds * SECOND - 2
  {
    var routes, late := map["s" := SharedEntry(PLAIN, 0, map[])], seconds * SECOND - 1;
    ws, steps := CopiedRun(seconds, late);
    HitsLast(seconds, late, 2 * late);
    ws, steps := OneMore(ws, steps, Two(Copied(0), Copied(late), routes, 2), Serve(1, Page(seconds), 2 * late, Hit(PLAIN), QUIET),
                         Two(Copied(0), Copied(late), routes, 3));
  }
}
