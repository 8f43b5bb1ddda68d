/** Processes that share a cache store: versioned tags keep every process from serving invalidated renders. */
module TagProtocol {
  import opened Options
  import opened RenderCaches

  const SECOND: int := 1000000000

  datatype SharedEntry = SharedEntry(result: RenderResult, stored: int, tagVersions: map<string, string>)

  /** The shared store (L2). `used` is a history value: every version a tag ever had. */
  datatype Shared = Shared(versions: map<string, string>, routes: map<string, SharedEntry>, used: set<string>)

  datatype Request = Request(key: string, sharedKey: string, ttl: int, swr: int)

  datatype Process = Process(l1: Cache, maxEntries: nat, revalidating: set<string>)

  /** `clock` counts steps; `completed` records when each process last completed an invalidation of each tag. */
  datatype World = World(processes: map<nat, Process>, shared: Option<Shared>, clock: nat,
                         completed: map<(nat, string), nat>)

  datatype Outcome =
    | Hit(result: RenderResult)
    | Stale(result: RenderResult)
    | SharedHit(result: RenderResult)
    | SharedStale(result: RenderResult)
    | Miss

  /** What one store operation may do besides its purpose: `victim` leaves L1, and the L2 write may fail. */
  datatype Chance = Chance(victim: Option<string>, written: bool, touched: set<string>)

  datatype Step =
    | Serve(pid: nat, req: Request, now: int, outcome: Outcome, chance: Chance)
    | Flight(pid: nat, req: Request, now: int, found: Option<RenderResult>, made: Option<RenderResult>, chance: Chance)
    | Revalidate(pid: nat, req: Request, now: int, made: Option<RenderResult>, chance: Chance)
    | StoreContent(pid: nat, key: string, now: int, made: Option<RenderResult>, chance: Chance)
    | Attach(pid: nat, key: string, document: Option<CachedDocument>, budget: int)
    | DropLocal(pid: nat, tags: seq<string>)
    | Bump(pid: nat, tag: string, version: string)
    | Lose(sharedKey: string)

  // ---------------------------------------------------------------- what the code computes

  function CurrentVersion(s: Shared, t: string): string {
    if t in s.versions then s.versions[t] else "0"
  }

  /** Reading the version of a tag the store does not know writes the default. */
  function Defaulted(s: Shared, touched: set<string>): Shared {
    s.(versions := map t | t in s.versions.Keys + touched :: CurrentVersion(s, t))
  }

  function VersionsFor(shared: Option<Shared>, result: RenderResult): map<string, string> {
    if shared.None? then map[] else map t | t in Tags(result) :: CurrentVersion(shared.value, t)
  }

  predicate UpToDate(s: Shared, versions: map<string, string>) {
    forall t :: t in versions ==> CurrentVersion(s, t) == versions[t]
  }

  predicate LocalValid(shared: Option<Shared>, e: CacheEntry) {
    e.tagVersions == map[] || shared.None? || UpToDate(shared.value, e.tagVersions)
  }

  predicate Young(stored: int, now: int, seconds: int) {
    now - stored < seconds * SECOND
  }

  function Lookup(shared: Option<Shared>, p: Process, req: Request, now: int): Outcome {
    var local := LookupLocal(shared, p, req, now);
    if local.Miss? then LookupShared(shared, req, now) else local
  }

  function LookupLocal(shared: Option<Shared>, p: Process, req: Request, now: int): Outcome {
    if req.key in p.l1.items && LocalValid(shared, p.l1.items[req.key]) then
      var e := p.l1.items[req.key];
      if Young(e.stored, now, req.ttl) then Hit(e.result)
      else if req.swr > 0 && Young(e.stored, now, req.ttl + req.swr) then Stale(e.result)
      else Miss
    else Miss
  }

  function LookupShared(shared: Option<Shared>, req: Request, now: int): Outcome {
    if shared.Some? && req.sharedKey in shared.value.routes && UpToDate(shared.value, shared.value.routes[req.sharedKey].tagVersions) then
      var e := shared.value.routes[req.sharedKey];
      if Young(e.stored, now, req.ttl) then SharedHit(e.result)
      else if req.swr > 0 && Young(e.stored, now, req.ttl + req.swr) then SharedStale(e.result)
      else Miss
    else Miss
  }

  /** The recheck at the start of a single flight. */
  function Recheck(shared: Option<Shared>, p: Process, req: Request, now: int): Option<RenderResult> {
    var local := LookupLocal(shared, p, req, now);
    if local.Hit? then Some(local.result) else None
  }

  // ---------------------------------------------------------------- steps

  /** The store after versions were read for `touched` tags. */
  function Touch(shared: Option<Shared>, touched: set<string>): Option<Shared> {
    if shared.None? then None else Some(Defaulted(shared.value, touched))
  }

  ghost function WithL1(w: World, pid: nat, l1: Cache): World
    requires pid in w.processes
  {
    w.(processes := w.processes[pid := w.processes[pid].(l1 := l1)])
  }

  /** setRouteCache: read the versions of the result's tags, then store in L1. */
  ghost function StoreLocal(w: World, pid: nat, key: string, result: RenderResult, now: int, chance: Chance): World
    requires pid in w.processes
  {
    var l1 := AfterSet(w.processes[pid].l1, chance.victim, key, result, VersionsFor(w.shared, result), now);
    WithL1(w, pid, l1).(shared := Touch(w.shared, Tags(result)))
  }

  /** sharedRenderSet: read the versions again, then store in L2; the write may be lost. */
  function StoreShared(w: World, sharedKey: string, result: RenderResult, now: int, written: bool): World {
    if w.shared.None? then w
    else
      var s := Defaulted(w.shared.value, Tags(result));
      var e := SharedEntry(result, now, VersionsFor(w.shared, result));
      w.(shared := Some(if written then s.(routes := s.routes[sharedKey := e]) else s))
  }

  ghost function StoreBoth(w: World, pid: nat, req: Request, made: Option<RenderResult>, now: int, chance: Chance): World
    requires pid in w.processes
  {
    if made.None? then w
    else StoreShared(StoreLocal(w, pid, req.key, made.value, now, chance), req.sharedKey, made.value, now, chance.written)
  }

  function WithRevalidating(w: World, pid: nat, revalidating: set<string>): World
    requires pid in w.processes
  {
    w.(processes := w.processes[pid := w.processes[pid].(revalidating := revalidating)])
  }

  function Completed(w: World, pid: nat, tags: set<string>): World {
    w.(completed := map k | k in w.completed.Keys + (set t | t in tags :: (pid, t)) ::
         if k.0 == pid && k.1 in tags then w.clock else w.completed[k])
  }

  function Tick(w: World): World {
    w.(clock := w.clock + 1)
  }

  ghost predicate MadeNow(w: World, made: Option<RenderResult>) {
    made.Some? ==> made.value.rendered == w.clock
  }

  ghost predicate CanEvict(w: World, pid: nat, chance: Chance) {
    pid in w.processes && Victim(w.processes[pid].l1, w.processes[pid].maxEntries, chance.victim)
  }

  /** One atomic step. A validity check may write defaults for some of the unknown tags it looks at. */
  ghost predicate Next(w: World, step: Step, w': World) {
    match step
    case Serve(pid, req, now, outcome, chance) =>
      && CanEvict(w, pid, chance)
      && outcome == Lookup(w.shared, w.processes[pid], req, now)
      && var w1 := w.(shared := Touch(w.shared, chance.touched));
      w' == Tick(match outcome
                 case Hit(_) => w1
                 case Stale(_) => WithRevalidating(w1, pid, w.processes[pid].revalidating + {req.key})
                 case SharedHit(r) => StoreLocal(w1, pid, req.key, r, now, chance)
                 case SharedStale(r) =>
                   WithRevalidating(StoreLocal(w1, pid, req.key, r, now, chance), pid, w.processes[pid].revalidating + {req.key})
                 case Miss => w1)
    case Flight(pid, req, now, found, made, chance) =>
      && CanEvict(w, pid, chance)
      && MadeNow(w, made)
      && found == Recheck(w.shared, w.processes[pid], req, now)
      && (found.Some? ==> made.None?)
      && w' == Tick(StoreBoth(w.(shared := Touch(w.shared, chance.touched)), pid, req, made, now, chance))
    case Revalidate(pid, req, now, made, chance) =>
      && CanEvict(w, pid, chance)
      && MadeNow(w, made)
      && req.key in w.processes[pid].revalidating
      && w' == Tick(WithRevalidating(StoreBoth(w, pid, req, made, now, chance), pid, w.processes[pid].revalidating - {req.key}))
    case StoreContent(pid, key, now, made, chance) =>
      && CanEvict(w, pid, chance)
      && MadeNow(w, made)
      && made.Some?
      && w' == Tick(StoreLocal(w, pid, key, made.value, now, chance))
    case Attach(pid, key, document, budget) =>
      && pid in w.processes && pid in w'.processes
      && DocumentStep(w.processes[pid].l1, w'.processes[pid].l1, budget, key, document)
      && w' == Tick(WithL1(w, pid, w'.processes[pid].l1))
    case DropLocal(pid, tags) =>
      && pid in w.processes
      && var w1 := WithL1(w, pid, AfterInvalidate(w.processes[pid].l1, tags));
      w' == Tick(if w.shared.None? then Completed(w1, pid, Listed(tags)) else w1)
    case Bump(pid, tag, version) =>
      && w.shared.Some? && tag != "" && version !in w.shared.value.used
      && var s := w.shared.value;
      w' == Tick(Completed(w.(shared := Some(s.(versions := s.versions[tag := version], used := s.used + {version}))), pid, {tag}))
    case Lose(sharedKey) =>
      && w.shared.Some?
      && w' == Tick(w.(shared := Some(w.shared.value.(routes := w.shared.value.routes - {sharedKey}))))
  }

  ghost predicate Init(w: World) {
    && w.clock == 0 && w.completed == map[]
    && (forall p :: p in w.processes ==> w.processes[p].l1 == Cache(map[], map[], map[], 0) && w.processes[p].revalidating == {})
    && (w.shared.Some? ==> w.shared.value == Shared(map[], map[], {"0"}))
  }

  ghost predicate NextAt(ws: seq<World>, steps: seq<Step>, i: int)
    requires 0 <= i < |steps| < |ws|
  {
    Next(ws[i], steps[i], ws[i + 1])
  }

  ghost predicate Run(ws: seq<World>, steps: seq<Step>) {
    && |ws| == |steps| + 1
    && Init(ws[0])
    && forall i {:trigger NextAt(ws, steps, i)} :: 0 <= i < |steps| ==> NextAt(ws, steps, i)
  }

  /** The result a step hands to its caller from a cache or a flight, and the process that hands it out. */
  function Served(step: Step): Option<(nat, RenderResult)> {
    match step
    case Serve(pid, _, _, outcome, _) => if outcome.Miss? then None else Some((pid, outcome.result))
    case Flight(pid, _, _, found, made, _) =>
      if found.Some? then Some((pid, found.value)) else if made.Some? then Some((pid, made.value)) else None
    case _ => None
  }

  /** The step renders `r`: it finishes a render and stores the result. */
  predicate Renders(step: Step, r: RenderResult) {
    match step
    case Flight(_, _, _, _, made, _) => made == Some(r)
    case Revalidate(_, _, _, made, _) => made == Some(r)
    case StoreContent(_, _, _, made, _) => made == Some(r)
    case _ => false
  }

  /** The step completes an invalidation of `t` by process `pid`. Without a store that is the local drop. */
  predicate Completes(w: World, step: Step, pid: nat, t: string) {
    match step
    case DropLocal(p, tags) => w.shared.None? && p == pid && t in tags
    case Bump(p, tag, _) => p == pid && t == tag
    case _ => false
  }

  // ---------------------------------------------------------------- the invariant

  ghost predicate After(completed: map<(nat, string), nat>, t: string, n: nat) {
    forall p: nat :: (p, t) in completed ==> completed[(p, t)] < n
  }

  /** A versioned copy: for each tag, a copy that still has the current version is newer than every invalidation. */
  ghost predicate CopySound(completed: map<(nat, string), nat>, s: Shared, r: RenderResult, versions: map<string, string>) {
    && versions.Keys == Tags(r) && versions.Keys <= s.versions.Keys
    && (forall t :: t in versions ==> versions[t] in s.used)
    && (forall t :: t in versions && versions[t] == s.versions[t] ==> After(completed, t, r.rendered))
  }

  ghost predicate LocalSound(completed: map<(nat, string), nat>, shared: Option<Shared>, pid: nat, e: CacheEntry) {
    match shared
    case Some(s) => CopySound(completed, s, e.result, e.tagVersions)
    case None => forall t :: t in Tags(e.result) && (pid, t) in completed ==> completed[(pid, t)] < e.result.rendered
  }

  ghost predicate StoreSound(completed: map<(nat, string), nat>, s: Shared) {
    && "0" in s.used
    && (forall t :: t in s.versions ==> s.versions[t] in s.used)
    && (forall k :: k in s.routes ==> CopySound(completed, s, s.routes[k].result, s.routes[k].tagVersions))
    && (forall p: nat, t :: (p, t) in completed ==> t in s.versions)
  }

  ghost predicate ProcessSound(completed: map<(nat, string), nat>, shared: Option<Shared>, pid: nat, l1: Cache) {
    && Indexed(l1)
    && forall k :: k in l1.items ==> LocalSound(completed, shared, pid, l1.items[k])
  }

  ghost predicate Sound(w: World) {
    && (forall k :: k in w.completed ==> w.completed[k] < w.clock)
    && (forall p :: p in w.processes ==> ProcessSound(w.completed, w.shared, p, w.processes[p].l1))
    && (w.shared.Some? ==> StoreSound(w.completed, w.shared.value))
  }

  lemma SoundTouch(w: World, touched: set<string>)
    requires Sound(w)
    ensures Sound(w.(shared := Touch(w.shared, touched)))
  {
    if w.shared.Some? {
      var s := w.shared.value;
      var s' := Defaulted(s, touched);
      forall r, versions | CopySound(w.completed, s, r, versions)
        ensures CopySound(w.completed, s', r, versions)
      {
      }
    }
  }

  /** Storing a result that is newer than every invalidation of its tags. */
  lemma SoundStoreLocal(w: World, pid: nat, key: string, r: RenderResult, now: int, chance: Chance)
    requires Sound(w) && pid in w.processes
    requires forall t :: t in Tags(r) ==> After(w.completed, t, r.rendered)
    ensures Sound(StoreLocal(w, pid, key, r, now, chance))
  {
    SoundTouch(w, Tags(r));
    CopyStored(w, r);
    var shared := Touch(w.shared, Tags(r));
    assert ProcessSound(w.completed, shared, pid, w.processes[pid].l1);
    CacheSoundAfterSet(w.completed, shared, pid, w.processes[pid].l1, key, r, VersionsFor(w.shared, r), now, chance.victim);
  }

  /** A copy stored with the versions just read. */
  lemma CopyStored(w: World, r: RenderResult)
    requires Sound(w)
    requires forall t :: t in Tags(r) ==> After(w.completed, t, r.rendered)
    ensures w.shared.Some? ==> CopySound(w.completed, Defaulted(w.shared.value, Tags(r)), r, VersionsFor(w.shared, r))
  {
  }

  lemma CacheSoundAfterSet(completed: map<(nat, string), nat>, shared: Option<Shared>, pid: nat, l1: Cache, key: string,
                           r: RenderResult, versions: map<string, string>, now: int, victim: Option<string>)
    requires ProcessSound(completed, shared, pid, l1)
    requires LocalSound(completed, shared, pid, CacheEntry(r, None, now, versions))
    ensures ProcessSound(completed, shared, pid, AfterSet(l1, victim, key, r, versions, now))
  {
    SetKeepsIndex(l1, victim, key, r, versions, now);
  }

  lemma SoundStoreShared(w: World, sharedKey: string, r: RenderResult, now: int, written: bool)
    requires Sound(w)
    requires forall t :: t in Tags(r) ==> After(w.completed, t, r.rendered)
    ensures Sound(StoreShared(w, sharedKey, r, now, written))
  {
    if w.shared.Some? {
      SoundTouch(w, Tags(r));
      CopyStored(w, r);
      var s1 := Defaulted(w.shared.value, Tags(r));
      var s' := StoreShared(w, sharedKey, r, now, written).shared.value;
      assert s'.versions == s1.versions && s'.used == s1.used;
      SameVersions(w.completed, s1, s');
    }
  }

  lemma SameVersions(completed: map<(nat, string), nat>, s: Shared, s': Shared)
    requires s'.versions == s.versions && s'.used == s.used
    ensures forall x, versions :: CopySound(completed, s, x, versions) ==> CopySound(completed, s', x, versions)
  {
  }

  lemma SoundStoreBoth(w: World, pid: nat, req: Request, made: Option<RenderResult>, now: int, chance: Chance)
    requires Sound(w) && pid in w.processes && MadeNow(w, made)
    ensures Sound(StoreBoth(w, pid, req, made, now, chance))
  {
    if made.Some? {
      SoundStoreLocal(w, pid, req.key, made.value, now, chance);
      SoundStoreShared(StoreLocal(w, pid, req.key, made.value, now, chance), req.sharedKey, made.value, now, chance.written);
    }
  }

  /** What a lookup returns is newer than every invalidation that counts for this process. */
  lemma LookupFresh(w: World, pid: nat, req: Request, now: int, t: string, p: nat)
    requires Sound(w) && pid in w.processes
    requires w.shared.Some? || p == pid
    requires (p, t) in w.completed
    ensures var o := Lookup(w.shared, w.processes[pid], req, now);
            !o.Miss? && t in Tags(o.result) ==> w.completed[(p, t)] < o.result.rendered
  {
    var local := LookupLocal(w.shared, w.processes[pid], req, now);
    if !local.Miss? {
      var e := w.processes[pid].l1.items[req.key];
      assert LocalSound(w.completed, w.shared, pid, e);
      if w.shared.Some? && t in Tags(e.result) {
        assert t in e.tagVersions && e.tagVersions[t] == w.shared.value.versions[t];
      }
    } else if w.shared.Some? && req.sharedKey in w.shared.value.routes {
      var e := w.shared.value.routes[req.sharedKey];
      if t in Tags(e.result) && UpToDate(w.shared.value, e.tagVersions) {
        assert t in e.tagVersions && e.tagVersions[t] == w.shared.value.versions[t];
      }
    }
  }

  /** Which keys are being revalidated, and the time, do not matter. */
  lemma SoundRevalidating(w: World, pid: nat, revalidating: set<string>)
    requires Sound(w) && pid in w.processes
    ensures Sound(WithRevalidating(w, pid, revalidating))
  {
  }

  lemma SoundTick(w: World)
    requires Sound(w)
    ensures Sound(Tick(w))
  {
  }

  lemma SoundServeShared(w: World, pid: nat, req: Request, now: int, r: RenderResult, chance: Chance)
    requires Sound(w) && pid in w.processes
    requires Lookup(w.shared, w.processes[pid], req, now) in {SharedHit(r), SharedStale(r)}
    ensures Sound(StoreLocal(w.(shared := Touch(w.shared, chance.touched)), pid, req.key, r, now, chance))
  {
    var w1 := w.(shared := Touch(w.shared, chance.touched));
    SoundTouch(w, chance.touched);
    forall t, p: nat | t in Tags(r) && (p, t) in w1.completed ensures w1.completed[(p, t)] < r.rendered {
      LookupFresh(w, pid, req, now, t, p);
    }
    SoundStoreLocal(w1, pid, req.key, r, now, chance);
  }

  lemma SoundServe(w: World, step: Step, w': World)
    requires Sound(w) && step.Serve? && Next(w, step, w')
    ensures Sound(w')
  {
    var Serve(pid, req, now, outcome, chance) := step;
    var w1 := w.(shared := Touch(w.shared, chance.touched));
    var busy := w.processes[pid].revalidating + {req.key};
    SoundTouch(w, chance.touched);
    match outcome
    case Hit(_) => SoundTick(w1);
    case Stale(_) =>
      SoundRevalidating(w1, pid, busy);
      SoundTick(WithRevalidating(w1, pid, busy));
    case SharedHit(r) =>
      SoundServeShared(w, pid, req, now, r, chance);
      SoundTick(StoreLocal(w1, pid, req.key, r, now, chance));
    case SharedStale(r) =>
      SoundServeShared(w, pid, req, now, r, chance);
      var w2 := StoreLocal(w1, pid, req.key, r, now, chance);
      SoundRevalidating(w2, pid, busy);
      SoundTick(WithRevalidating(w2, pid, busy));
    case Miss => SoundTick(w1);
  }

  lemma SoundBump(w: World, pid: nat, tag: string, version: string, w': World)
    requires Sound(w) && Next(w, Bump(pid, tag, version), w')
    ensures Sound(w')
  {
    var s, s' := w.shared.value, w'.shared.value;
    forall r, versions | CopySound(w.completed, s, r, versions)
      ensures CopySound(w'.completed, s', r, versions)
    {
      forall t | t in versions && versions[t] == s'.versions[t]
        ensures After(w'.completed, t, r.rendered)
      {
        assert t != tag;
        assert After(w.completed, t, r.rendered);
      }
    }
  }

  lemma SoundAttach(w: World, step: Step, w': World)
    requires Sound(w) && step.Attach? && Next(w, step, w')
    ensures Sound(w')
  {
    IndexedKept(w.processes[step.pid].l1, w'.processes[step.pid].l1);
  }

  lemma SoundDrop(w: World, pid: nat, tags: seq<string>, w': World)
    requires Sound(w) && Next(w, DropLocal(pid, tags), w')
    ensures Sound(w')
  {
    InvalidateKeepsIndex(w.processes[pid].l1, tags);
  }

  lemma SoundLose(w: World, step: Step, w': World)
    requires Sound(w) && step.Lose? && Next(w, step, w')
    ensures Sound(w')
  {
  }

  /** Every step keeps the invariant. */
  lemma SoundNext(w: World, step: Step, w': World)
    requires Sound(w) && Next(w, step, w')
    ensures Sound(w')
  {
    match step
    case Serve(_, _, _, _, _) => SoundServe(w, step, w');
    case Flight(pid, req, now, _, made, chance) =>
      SoundTouch(w, chance.touched);
      SoundStoreBoth(w.(shared := Touch(w.shared, chance.touched)), pid, req, made, now, chance);
    case Revalidate(pid, req, now, made, chance) => SoundStoreBoth(w, pid, req, made, now, chance);
    case StoreContent(pid, key, now, made, chance) => SoundStoreLocal(w, pid, key, made.value, now, chance);
    case Attach(_, _, _, _) => SoundAttach(w, step, w');
    case DropLocal(pid, tags) => SoundDrop(w, pid, tags, w');
    case Bump(pid, tag, version) => SoundBump(w, pid, tag, version, w');
    case Lose(_) => SoundLose(w, step, w');
  }

  // ---------------------------------------------------------------- over whole runs

  lemma NextFrame(w: World, step: Step, w': World)
    requires Next(w, step, w')
    ensures w'.clock == w.clock + 1 && (w'.shared.Some? <==> w.shared.Some?)
  {
  }

  lemma {:induction false} SoundRun(ws: seq<World>, steps: seq<Step>, i: nat)
    requires Run(ws, steps) && i < |ws|
    ensures Sound(ws[i]) && ws[i].clock == i && (ws[i].shared.Some? <==> ws[0].shared.Some?)
  {
    if i > 0 {
      SoundRun(ws, steps, i - 1);
      assert NextAt(ws, steps, i - 1);
      SoundNext(ws[i - 1], steps[i - 1], ws[i]);
      NextFrame(ws[i - 1], steps[i - 1], ws[i]);
    }
  }

  /** A step records the invalidation it completes, and never moves a record back. */
  lemma CompletedNext(w: World, step: Step, w': World, p: nat, t: string)
    requires Next(w, step, w')
    ensures Completes(w, step, p, t) ==> (p, t) in w'.completed && w'.completed[(p, t)] == w.clock
    ensures (p, t) in w.completed ==> (p, t) in w'.completed && w'.completed[(p, t)] in {w.completed[(p, t)], w.clock}
  {
  }

  lemma CompletedAt(ws: seq<World>, steps: seq<Step>, i: nat, p: nat, t: string)
    requires Run(ws, steps) && i < |steps|
    ensures Completes(ws[i], steps[i], p, t) ==> (p, t) in ws[i + 1].completed && ws[i + 1].completed[(p, t)] == i
    ensures (p, t) in ws[i].completed ==>
              (p, t) in ws[i + 1].completed && ws[i + 1].completed[(p, t)] in {ws[i].completed[(p, t)], i}
  {
    SoundRun(ws, steps, i);
    assert NextAt(ws, steps, i);
    CompletedNext(ws[i], steps[i], ws[i + 1], p, t);
  }

  /** A completed invalidation stays on record, no earlier than it happened. */
  lemma {:induction false} CompletedRun(ws: seq<World>, steps: seq<Step>, j: nat, i: nat, p: nat, t: string)
    requires Run(ws, steps) && j < i < |ws|
    requires Completes(ws[j], steps[j], p, t)
    ensures (p, t) in ws[i].completed && ws[i].completed[(p, t)] >= j
  {
    CompletedAt(ws, steps, i - 1, p, t);
    if i - 1 > j {
      CompletedRun(ws, steps, j, i - 1, p, t);
    }
  }

  /** `r` was rendered by the step its history value names. */
  ghost predicate Known(steps: seq<Step>, i: nat, r: RenderResult)
    requires i <= |steps|
  {
    r.rendered < i && Renders(steps[r.rendered], r)
  }

  ghost predicate CacheKnown(l1: Cache, steps: seq<Step>, i: nat)
    requires i <= |steps|
  {
    forall k :: k in l1.items ==> Known(steps, i, l1.items[k].result)
  }

  ghost predicate AllKnown(w: World, steps: seq<Step>, i: nat)
    requires i <= |steps|
  {
    && (forall p :: p in w.processes ==> CacheKnown(w.processes[p].l1, steps, i))
    && (w.shared.Some? ==> forall k :: k in w.shared.value.routes ==> Known(steps, i, w.shared.value.routes[k].result))
  }

  lemma KnownStoreLocal(w: World, steps: seq<Step>, i: nat, pid: nat, key: string, r: RenderResult, now: int, chance: Chance)
    requires i <= |steps| && pid in w.processes && AllKnown(w, steps, i) && Known(steps, i, r)
    ensures AllKnown(StoreLocal(w, pid, key, r, now, chance), steps, i)
  {
    var w' := StoreLocal(w, pid, key, r, now, chance);
    assert CacheKnown(w.processes[pid].l1, steps, i);
    assert CacheKnown(w'.processes[pid].l1, steps, i);
  }

  lemma KnownStoreBoth(w: World, steps: seq<Step>, i: nat, pid: nat, req: Request, made: Option<RenderResult>, now: int, chance: Chance)
    requires i <= |steps| && pid in w.processes && AllKnown(w, steps, i)
    requires made.Some? ==> Known(steps, i, made.value)
    ensures AllKnown(StoreBoth(w, pid, req, made, now, chance), steps, i)
  {
    if made.Some? {
      KnownStoreLocal(w, steps, i, pid, req.key, made.value, now, chance);
    }
  }

  lemma KnownNext(w: World, w': World, steps: seq<Step>, i: nat)
    requires i < |steps| && w.clock == i && AllKnown(w, steps, i) && Next(w, steps[i], w')
    ensures AllKnown(w', steps, i + 1)
  {
    assert AllKnown(w, steps, i + 1);
    match steps[i]
    case Serve(_, _, _, _, _) => KnownServe(w, w', steps, i);
    case Flight(pid, req, now, _, made, chance) =>
      KnownStoreBoth(w.(shared := Touch(w.shared, chance.touched)), steps, i + 1, pid, req, made, now, chance);
    case Revalidate(pid, req, now, made, chance) => KnownStoreBoth(w, steps, i + 1, pid, req, made, now, chance);
    case StoreContent(pid, key, now, made, chance) => KnownStoreLocal(w, steps, i + 1, pid, key, made.value, now, chance);
    case _ => KnownOther(w, w', steps, i);
  }

  lemma KnownShared(w: World, steps: seq<Step>, i: nat, pid: nat, req: Request, now: int)
    requires i <= |steps| && pid in w.processes && AllKnown(w, steps, i)
    ensures var o := Lookup(w.shared, w.processes[pid], req, now);
            o.SharedHit? || o.SharedStale? ==> Known(steps, i, o.result)
  {
  }

  lemma KnownSame(w: World, w': World, steps: seq<Step>, i: nat)
    requires i <= |steps| && AllKnown(w, steps, i)
    requires w'.shared == w.shared && w'.processes.Keys == w.processes.Keys
    requires forall p :: p in w.processes ==> w'.processes[p].l1 == w.processes[p].l1
    ensures AllKnown(w', steps, i)
  {
  }

  lemma KnownServe(w: World, w': World, steps: seq<Step>, i: nat)
    requires i < |steps| && steps[i].Serve? && AllKnown(w, steps, i + 1) && Next(w, steps[i], w')
    ensures AllKnown(w', steps, i + 1)
  {
    var Serve(pid, req, now, outcome, chance) := steps[i];
    var w1 := w.(shared := Touch(w.shared, chance.touched));
    KnownTouch(w, steps, i + 1, chance.touched);
    KnownShared(w, steps, i + 1, pid, req, now);
    match outcome
    case SharedHit(r) =>
      KnownStoreLocal(w1, steps, i + 1, pid, req.key, r, now, chance);
      KnownSame(StoreLocal(w1, pid, req.key, r, now, chance), w', steps, i + 1);
    case SharedStale(r) =>
      KnownStoreLocal(w1, steps, i + 1, pid, req.key, r, now, chance);
      KnownSame(StoreLocal(w1, pid, req.key, r, now, chance), w', steps, i + 1);
    case _ => KnownSame(w1, w', steps, i + 1);
  }

  lemma KnownTouch(w: World, steps: seq<Step>, i: nat, touched: set<string>)
    requires i <= |steps| && AllKnown(w, steps, i)
    ensures AllKnown(w.(shared := Touch(w.shared, touched)), steps, i)
  {
  }

  lemma KnownOther(w: World, w': World, steps: seq<Step>, i: nat)
    requires i < |steps| && AllKnown(w, steps, i + 1) && Next(w, steps[i], w')
    requires steps[i].Attach? || steps[i].DropLocal? || steps[i].Bump? || steps[i].Lose?
    ensures AllKnown(w', steps, i + 1)
  {
    if steps[i].Attach? || steps[i].DropLocal? {
      var l1, l1' := w.processes[steps[i].pid].l1, w'.processes[steps[i].pid].l1;
      assert CacheKnown(l1, steps, i + 1);
      assert forall k :: k in l1'.items ==> k in l1.items && l1'.items[k].result == l1.items[k].result;
      assert CacheKnown(l1', steps, i + 1);
    }
  }

  lemma {:induction false} KnownRun(ws: seq<World>, steps: seq<Step>, i: nat)
    requires Run(ws, steps) && i < |ws|
    ensures AllKnown(ws[i], steps, i)
  {
    if i > 0 {
      KnownRun(ws, steps, i - 1);
      SoundRun(ws, steps, i - 1);
      assert NextAt(ws, steps, i - 1);
      KnownNext(ws[i - 1], ws[i], steps, i - 1);
    }
  }

  /** Coherence. Step `j` completed an invalidation of `t`; whatever step `i` then serves under `t`, from either cache
      level or from a flight, in any process that shares the store (in the same process if there is no store), was
      rendered by a step after `j`. */
  lemma Coherent(ws: seq<World>, steps: seq<Step>, j: nat, i: nat, p: nat, t: string, q: nat, r: RenderResult)
    returns (k: nat)
    requires Run(ws, steps) && j < i < |steps|
    requires Completes(ws[j], steps[j], p, t)
    requires Served(steps[i]) == Some((q, r)) && t != "" && t in r.cacheTags
    requires ws[0].shared.Some? || p == q
    ensures j < k <= i && Renders(steps[k], r)
  {
    k := r.rendered;
    SoundRun(ws, steps, i);
    KnownRun(ws, steps, i);
    CompletedRun(ws, steps, j, i, p, t);
    assert NextAt(ws, steps, i);
    ServedFresh(ws[i], ws[i + 1], steps[i], p, t, q, r);
    ServedKnown(ws[i], ws[i + 1], steps, i, q, r);
  }

  lemma ServedFresh(w: World, w': World, step: Step, p: nat, t: string, q: nat, r: RenderResult)
    requires Sound(w) && Next(w, step, w') && Served(step) == Some((q, r)) && t in Tags(r)
    requires (w.shared.Some? || p == q) && (p, t) in w.completed
    ensures w.completed[(p, t)] < r.rendered
  {
    match step
    case Serve(pid, req, now, _, _) => LookupFresh(w, pid, req, now, t, p);
    case Flight(pid, req, now, found, _, _) => LookupFresh(w, pid, req, now, t, p);
  }

  lemma ServedKnown(w: World, w': World, steps: seq<Step>, i: nat, q: nat, r: RenderResult)
    requires i < |steps| && w.clock == i && AllKnown(w, steps, i) && Next(w, steps[i], w')
    requires Served(steps[i]) == Some((q, r))
    ensures Known(steps, i + 1, r)
  {
    assert CacheKnown(w.processes[q].l1, steps, i);
  }

  function Forget(s: Shared, t: string): Shared {
    s.(versions := s.versions - {t})
  }

  /** The store has to keep its tag keys. Forgetting the key of `t` makes an out-of-date copy valid again if and only if
      the copy has the default version of `t`, which is no longer the current one, and all its other versions are
      current. */
  lemma ForgottenTag(s: Shared, versions: map<string, string>, t: string)
    ensures !UpToDate(s, versions) && UpToDate(Forget(s, t), versions)
            <==> t in versions && versions[t] == "0" && CurrentVersion(s, t) != "0"
                 && forall u :: u in versions && u != t ==> CurrentVersion(s, u) == versions[u]
  {
    forall u ensures CurrentVersion(Forget(s, t), u) == if u == t then "0" else CurrentVersion(s, u) {
    }
    if t in versions && versions[t] == "0" && CurrentVersion(s, t) != "0" {
      assert !UpToDate(s, versions);
    }
  }

  /** A run after which that happens: process 0 stores a result with a tag, process 1 invalidates the tag, and once the
      store has forgotten the key process 0 serves the result again. */
  lemma StoreMustKeepTags() returns (ws: seq<World>, steps: seq<Step>, t: string, req: Request)
    ensures Run(ws, steps) && |steps| == 2 && Completes(ws[1], steps[1], 1, t) && ws[2].shared.Some? && 0 in ws[2].processes
    ensures Lookup(ws[2].shared, ws[2].processes[0], req, 0).Miss?
    ensures var o := Lookup(Some(Forget(ws[2].shared.value, t)), ws[2].processes[0], req, 0);
            o.Hit? && t in Tags(o.result) && Renders(steps[0], o.result)
  {
    t, req := "t", Request("k", "s", 1, 0);
    var r := RenderResult("", [t], 0);
    TagsOfOne(t);
    ws, steps := StoredThenBumped(r, t);
    assert Holder(r, t).l1.items == map["k" := CacheEntry(r, None, 0, map[t := "0"])];
    OldCopy(ws[2].shared.value, ws[2].processes[0], req, r, t);
  }

  lemma OldCopy(s: Shared, p: Process, req: Request, r: RenderResult, t: string)
    requires s.versions == map[t := "1"] && s.routes == map[] && req.ttl == 1
    requires p.l1.items == map[req.key := CacheEntry(r, None, 0, map[t := "0"])]
    ensures Lookup(Some(s), p, req, 0).Miss? && Lookup(Some(Forget(s, t)), p, req, 0) == Hit(r)
  {
    assert CurrentVersion(s, t) == "1" && CurrentVersion(Forget(s, t), t) == "0";
    assert !UpToDate(s, map[t := "0"]) && UpToDate(Forget(s, t), map[t := "0"]);
  }

  /** Process 0 after storing the result, with the default version of its tag. */
  ghost function Holder(r: RenderResult, t: string): Process {
    Process(AfterSet(EMPTY, None, "k", r, map[t := "0"], 0), 1, {})
  }

  const EMPTY: Cache := Cache(map[], map[], map[], 0)

  ghost function OnceStored(r: RenderResult, t: string): World {
    World(map[0 := Holder(r, t), 1 := Process(EMPTY, 1, {})], Some(Shared(map[t := "0"], map[], {"0"})), 1, map[])
  }

  lemma StoredFirst(r: RenderResult, t: string) returns (ws: seq<World>, steps: seq<Step>)
    requires t != "" && Tags(r) == {t} && r.rendered == 0
    ensures Run(ws, steps) && steps == [StoreContent(0, "k", 0, Some(r), Chance(None, true, {}))] && ws[1] == OnceStored(r, t)
  {
    var w0 := World(map[0 := Process(EMPTY, 1, {}), 1 := Process(EMPTY, 1, {})], Some(Shared(map[], map[], {"0"})), 0, map[]);
    FirstStored(w0, OnceStored(r, t), r, t);
    ws, steps := OneMore([w0], [], w0, StoreContent(0, "k", 0, Some(r), Chance(None, true, {})), OnceStored(r, t));
  }

  lemma StoredThenBumped(r: RenderResult, t: string) returns (ws: seq<World>, steps: seq<Step>)
    requires t != "" && Tags(r) == {t} && r.rendered == 0
    ensures Run(ws, steps) && steps == [StoreContent(0, "k", 0, Some(r), Chance(None, true, {})), Bump(1, t, "1")]
    ensures ws[2].shared == Some(Shared(map[t := "1"], map[], {"0", "1"})) && ws[2].processes == OnceStored(r, t).processes
  {
    ws, steps := StoredFirst(r, t);
    var w1 := OnceStored(r, t);
    var w2 := World(w1.processes, Some(Shared(map[t := "1"], map[], {"0", "1"})), 2, map[(1, t) := 1]);
    TagBumped(w1, w2, t);
    ws, steps := OneMore(ws, steps, w1, Bump(1, t, "1"), w2);
  }

  lemma StepAt(ws: seq<World>, steps: seq<Step>, i: nat, w: World, step: Step, w': World)
    requires i < |steps| < |ws| && ws[i] == w && steps[i] == step && ws[i + 1] == w' && Next(w, step, w')
    ensures NextAt(ws, steps, i)
  {
  }

  /** A run goes on with any enabled step. */
  lemma OneMore(ws: seq<World>, steps: seq<Step>, w: World, step: Step, w': World) returns (ws': seq<World>, steps': seq<Step>)
    requires Run(ws, steps) && ws[|steps|] == w
    ensures Next(w, step, w') ==> Run(ws', steps')
    ensures ws' == ws + [w'] && steps' == steps + [step] && ws'[|steps'|] == w'
  {
    ws', steps' := ws + [w'], steps + [step];
    if Next(w, step, w') {
      forall i | 0 <= i < |steps'| ensures NextAt(ws', steps', i) {
        if i < |steps| { SameStep(ws, steps, w', step, i); } else { StepAt(ws', steps', i, w, step, w'); }
      }
    }
  }

  lemma SameStep(ws: seq<World>, steps: seq<Step>, w': World, step: Step, i: nat)
    requires |ws| == |steps| + 1 && i < |steps| && NextAt(ws, steps, i)
    ensures NextAt(ws + [w'], steps + [step], i)
  {
    assert (ws + [w'])[i] == ws[i] && (ws + [w'])[i + 1] == ws[i + 1] && (steps + [step])[i] == steps[i];
  }

  lemma TagsOfOne(t: string)
    requires t != ""
    ensures Tags(RenderResult("", [t], 0)) == {t}
  {
    assert [t][0] == t;
  }

  lemma FirstStored(w: World, w': World, r: RenderResult, t: string)
    requires Tags(r) == {t} && r.rendered == 0
    requires w == World(map[0 := Process(EMPTY, 1, {}), 1 := Process(EMPTY, 1, {})], Some(Shared(map[], map[], {"0"})), 0, map[])
    requires w' == OnceStored(r, t)
    ensures Next(w, StoreContent(0, "k", 0, Some(r), Chance(None, true, {})), w')
  {
    var s := w.shared.value;
    assert VersionsFor(w.shared, r) == map[t := "0"];
    assert Defaulted(s, Tags(r)).versions == map[t := "0"];
    assert StoreLocal(w, 0, "k", r, 0, Chance(None, true, {})).processes == w'.processes;
  }

  lemma TagBumped(w: World, w': World, t: string)
    requires t != "" && w.shared.Some? && w.shared.value == Shared(map[t := "0"], map[], {"0"}) && w.clock == 1 && w.completed == map[]
    requires w' == World(w.processes, Some(Shared(map[t := "1"], map[], {"0", "1"})), 2, map[(1, t) := 1])
    ensures Next(w, Bump(1, t, "1"), w')
  {
    var s := w.shared.value;
    assert s.versions[t := "1"] == map[t := "1"] && s.used + {"1"} == {"0", "1"};
    var w1 := w.(shared := Some(s.(versions := s.versions[t := "1"], used := s.used + {"1"})));
    assert Completed(w1, 1, {t}).completed.Keys == {(1, t)};
    assert Completed(w1, 1, {t}).completed == map[(1, t) := 1];
  }
}
