/** How long a stored result answers: until it is invalidated, evicted, lost or replaced. */
module RenderReuse {
  import opened Options
  import opened RenderCaches
  import opened TagProtocol
  import opened DocumentProtocol

  /** What a step puts into a local cache, and where. */
  function LocalStore(step: Step): Option<(nat, string, RenderResult, int)> {
    match step
    case Serve(pid, req, now, SharedHit(r), _) => Some((pid, req.key, r, now))
    case Serve(pid, req, now, SharedStale(r), _) => Some((pid, req.key, r, now))
    case Flight(pid, req, now, _, Some(r), _) => Some((pid, req.key, r, now))
    case Revalidate(pid, req, now, Some(r), _) => Some((pid, req.key, r, now))
    case StoreContent(pid, key, now, Some(r), _) => Some((pid, key, r, now))
    case _ => None
  }

  /** What a step succeeds in writing to the shared store, and where. */
  function SharedStore(step: Step): Option<(string, RenderResult, int)> {
    match step
    case Flight(_, req, now, _, Some(r), chance) => if chance.written then Some((req.sharedKey, r, now)) else None
    case Revalidate(_, req, now, Some(r), chance) => if chance.written then Some((req.sharedKey, r, now)) else None
    case _ => None
  }

  /** A store of another key by the process makes room with this one. */
  predicate Evicts(step: Step, pid: nat, key: string) {
    LocalStore(step).Some? && LocalStore(step).value.0 == pid && step.chance.victim == Some(key)
  }

  /** A local invalidation that finds the key in the index. */
  ghost predicate Drops(w: World, step: Step, pid: nat, key: string) {
    step.DropLocal? && step.pid == pid && pid in w.processes && key in Doomed(w.processes[pid].l1, step.tags)
  }

  predicate Bumps(step: Step, r: RenderResult) {
    step.Bump? && step.tag in Tags(r)
  }

  /** The step leaves the process's copy of `r` under the key alone. */
  ghost predicate SparesLocal(w: World, step: Step, pid: nat, key: string, r: RenderResult) {
    && !(LocalStore(step).Some? && LocalStore(step).value.0 == pid && LocalStore(step).value.1 == key)
    && !Evicts(step, pid, key) && !Drops(w, step, pid, key) && !Bumps(step, r)
  }

  /** The step leaves the shared copy of `r` under the key alone. */
  predicate SparesShared(step: Step, sharedKey: string, r: RenderResult) {
    && !(SharedStore(step).Some? && SharedStore(step).value.0 == sharedKey)
    && step != Lose(sharedKey) && !Bumps(step, r)
  }

  ghost predicate HasLocal(w: World, pid: nat, key: string, r: RenderResult, stored: int) {
    && pid in w.processes && key in w.processes[pid].l1.items
    && var e := w.processes[pid].l1.items[key];
    e.result == r && e.stored == stored && e.tagVersions.Keys <= Tags(r) && LocalValid(w.shared, e)
  }

  ghost predicate HasShared(w: World, sharedKey: string, r: RenderResult, stored: int) {
    && w.shared.Some? && sharedKey in w.shared.value.routes
    && var e := w.shared.value.routes[sharedKey];
    e.result == r && e.stored == stored && e.tagVersions.Keys <= Tags(r) && UpToDate(w.shared.value, e.tagVersions)
  }

  // ---------------------------------------------------------------- what stays valid

  predicate SameVersionsOf(shared: Option<Shared>, shared': Option<Shared>, tags: set<string>) {
    && (shared.Some? <==> shared'.Some?)
    && (shared.Some? ==> forall t :: t in tags ==> CurrentVersion(shared'.value, t) == CurrentVersion(shared.value, t))
  }

  lemma TouchKeepsVersions(shared: Option<Shared>, touched: set<string>, tags: set<string>)
    ensures SameVersionsOf(shared, Touch(shared, touched), tags)
  {
  }

  lemma StoreBothVersions(w: World, pid: nat, req: Request, made: Option<RenderResult>, now: int, chance: Chance, tags: set<string>)
    requires pid in w.processes
    ensures SameVersionsOf(w.shared, StoreBoth(w, pid, req, made, now, chance).shared, tags)
  {
    if made.Some? {
      var w1 := StoreLocal(w, pid, req.key, made.value, now, chance);
      TouchKeepsVersions(w.shared, Tags(made.value), tags);
      TouchKeepsVersions(w1.shared, Tags(made.value), tags);
    }
  }

  /** Only an invalidation changes the version of a tag. */
  lemma VersionsNext(w: World, step: Step, w': World, r: RenderResult)
    requires Next(w, step, w') && !Bumps(step, r)
    ensures SameVersionsOf(w.shared, w'.shared, Tags(r))
  {
    match step
    case Serve(pid, req, now, outcome, chance) =>
      TouchKeepsVersions(w.shared, chance.touched, Tags(r));
      if outcome.SharedHit? || outcome.SharedStale? {
        TouchKeepsVersions(Touch(w.shared, chance.touched), Tags(outcome.result), Tags(r));
      }
    case Flight(pid, req, now, _, made, chance) =>
      TouchKeepsVersions(w.shared, chance.touched, Tags(r));
      StoreBothVersions(w.(shared := Touch(w.shared, chance.touched)), pid, req, made, now, chance, Tags(r));
    case Revalidate(pid, req, now, made, chance) => StoreBothVersions(w, pid, req, made, now, chance, Tags(r));
    case StoreContent(_, _, _, made, _) => TouchKeepsVersions(w.shared, Tags(made.value), Tags(r));
    case _ =>
  }

  lemma StillValid(shared: Option<Shared>, shared': Option<Shared>, e: CacheEntry, tags: set<string>)
    requires SameVersionsOf(shared, shared', tags) && e.tagVersions.Keys <= tags
    ensures LocalValid(shared', e) <==> LocalValid(shared, e)
  {
  }

  // ---------------------------------------------------------------- local copies

  lemma StoredHere(w: World, pid: nat, key: string, r: RenderResult, now: int, chance: Chance)
    requires pid in w.processes
    ensures HasLocal(StoreLocal(w, pid, key, r, now, chance), pid, key, r, now)
  {
    StoredValid(w, pid, key, r, now, chance);
  }

  lemma StoredBothHere(w: World, pid: nat, req: Request, r: RenderResult, now: int, chance: Chance)
    requires pid in w.processes
    ensures HasLocal(StoreBoth(w, pid, req, Some(r), now, chance), pid, req.key, r, now)
  {
    StoredHere(w, pid, req.key, r, now, chance);
    StoredBothValid(w, pid, req, Some(r), now, chance);
  }

  lemma StoresItLocally(w: World, step: Step, w': World)
    requires Next(w, step, w') && LocalStore(step).Some?
    ensures var (pid, key, r, now) := LocalStore(step).value;
            HasLocal(w', pid, key, r, now)
  {
    match step
    case Serve(pid, req, now, outcome, chance) =>
      StoredHere(w.(shared := Touch(w.shared, chance.touched)), pid, req.key, outcome.result, now, chance);
    case Flight(pid, req, now, _, made, chance) =>
      StoredBothHere(w.(shared := Touch(w.shared, chance.touched)), pid, req, made.value, now, chance);
    case Revalidate(pid, req, now, made, chance) => StoredBothHere(w, pid, req, made.value, now, chance);
    case StoreContent(pid, key, now, made, chance) => StoredHere(w, pid, key, made.value, now, chance);
  }

  /** The entry keeps its result, its time and its versions. */
  ghost predicate SameCopy(w: World, w': World, pid: nat, key: string) {
    && pid in w.processes && key in w.processes[pid].l1.items && pid in w'.processes && key in w'.processes[pid].l1.items
    && var e, e' := w.processes[pid].l1.items[key], w'.processes[pid].l1.items[key];
    e'.result == e.result && e'.stored == e.stored && e'.tagVersions == e.tagVersions
  }

  lemma StoreLeaves(w: World, pid: nat, key: string, r: RenderResult, now: int, chance: Chance, p: nat, k: string)
    requires pid in w.processes && p in w.processes && k in w.processes[p].l1.items
    requires p == pid ==> k != key && chance.victim != Some(k)
    ensures SameCopy(w, StoreLocal(w, pid, key, r, now, chance), p, k)
  {
  }

  lemma CopyNext(w: World, step: Step, w': World, pid: nat, key: string, r: RenderResult)
    requires Next(w, step, w') && pid in w.processes && key in w.processes[pid].l1.items && SparesLocal(w, step, pid, key, r)
    ensures SameCopy(w, w', pid, key)
  {
    match step
    case Serve(p, req, now, outcome, chance) =>
      if outcome.SharedHit? || outcome.SharedStale? {
        StoreLeaves(w.(shared := Touch(w.shared, chance.touched)), p, req.key, outcome.result, now, chance, pid, key);
      }
    case Flight(p, req, now, _, made, chance) =>
      if made.Some? { StoreLeaves(w.(shared := Touch(w.shared, chance.touched)), p, req.key, made.value, now, chance, pid, key); }
    case Revalidate(p, req, now, made, chance) =>
      if made.Some? { StoreLeaves(w, p, req.key, made.value, now, chance, pid, key); }
    case StoreContent(p, k, now, made, chance) => StoreLeaves(w, p, k, made.value, now, chance, pid, key);
    case _ => CopyOther(w, step, w', pid, key, r);
  }

  lemma CopyOther(w: World, step: Step, w': World, pid: nat, key: string, r: RenderResult)
    requires Next(w, step, w') && pid in w.processes && key in w.processes[pid].l1.items && SparesLocal(w, step, pid, key, r)
    requires step.Attach? || step.DropLocal? || step.Bump? || step.Lose?
    ensures SameCopy(w, w', pid, key)
  {
  }

  lemma KeepsLocal(w: World, step: Step, w': World, pid: nat, key: string, r: RenderResult, stored: int)
    requires Next(w, step, w') && HasLocal(w, pid, key, r, stored) && SparesLocal(w, step, pid, key, r)
    ensures HasLocal(w', pid, key, r, stored)
  {
    CopyNext(w, step, w', pid, key, r);
    VersionsNext(w, step, w', r);
    StillValid(w.shared, w'.shared, w.processes[pid].l1.items[key], Tags(r));
  }

  lemma {:induction false} LocalStays(ws: seq<World>, steps: seq<Step>, k: nat, i: nat)
    requires Run(ws, steps) && k < i < |ws| && LocalStore(steps[k]).Some?
    requires var (pid, key, r, _) := LocalStore(steps[k]).value;
             forall j :: k < j < i ==> SparesLocal(ws[j], steps[j], pid, key, r)
    ensures var (pid, key, r, now) := LocalStore(steps[k]).value;
            HasLocal(ws[i], pid, key, r, now)
    decreases i
  {
    var (pid, key, r, now) := LocalStore(steps[k]).value;
    assert NextAt(ws, steps, i - 1);
    if i == k + 1 {
      StoresItLocally(ws[k], steps[k], ws[i]);
    } else {
      LocalStays(ws, steps, k, i - 1);
      KeepsLocal(ws[i - 1], steps[i - 1], ws[i], pid, key, r, now);
    }
  }

  /** What step `k` stored in a process answers that process's look-ups of the key: a hit until its ttl is over, then
      stale until its stale time is, whatever happens in between, unless the entry is stored again, evicted or dropped
      or one of its tags is invalidated. */
  lemma LocalReuse(ws: seq<World>, steps: seq<Step>, k: nat, i: nat, req: Request, at: int)
    requires Run(ws, steps) && k < i < |ws| && LocalStore(steps[k]).Some?
    requires var (pid, key, r, _) := LocalStore(steps[k]).value;
             req.key == key && forall j :: k < j < i ==> SparesLocal(ws[j], steps[j], pid, key, r)
    ensures var (pid, _, r, now) := LocalStore(steps[k]).value;
            && pid in ws[i].processes
            && (at < now + req.ttl * SECOND ==> Lookup(ws[i].shared, ws[i].processes[pid], req, at) == Hit(r))
            && (now + req.ttl * SECOND <= at < now + (req.ttl + req.swr) * SECOND ==>
                  Lookup(ws[i].shared, ws[i].processes[pid], req, at) == Stale(r))
  {
    LocalStays(ws, steps, k, i);
  }

  // ---------------------------------------------------------------- shared copies

  lemma StoredThere(w: World, pid: nat, req: Request, r: RenderResult, now: int, chance: Chance)
    requires pid in w.processes && w.shared.Some? && chance.written
    ensures HasShared(StoreBoth(w, pid, req, Some(r), now, chance), req.sharedKey, r, now)
  {
    var w1 := StoreLocal(w, pid, req.key, r, now, chance);
    DefaultsKeep(w1.shared.value, Tags(r), VersionsFor(w1.shared, r));
  }

  lemma StoresItShared(w: World, step: Step, w': World)
    requires Next(w, step, w') && SharedStore(step).Some? && w.shared.Some?
    ensures var (sharedKey, r, now) := SharedStore(step).value;
            HasShared(w', sharedKey, r, now)
  {
    match step
    case Flight(pid, req, now, _, made, chance) =>
      StoredThere(w.(shared := Touch(w.shared, chance.touched)), pid, req, made.value, now, chance);
    case Revalidate(pid, req, now, made, chance) => StoredThere(w, pid, req, made.value, now, chance);
  }

  lemma RouteNext(w: World, step: Step, w': World, sharedKey: string, r: RenderResult)
    requires Next(w, step, w') && w.shared.Some? && sharedKey in w.shared.value.routes && SparesShared(step, sharedKey, r)
    ensures w'.shared.Some? && sharedKey in w'.shared.value.routes
    ensures w'.shared.value.routes[sharedKey] == w.shared.value.routes[sharedKey]
  {
  }

  lemma KeepsShared(w: World, step: Step, w': World, sharedKey: string, r: RenderResult, stored: int)
    requires Next(w, step, w') && HasShared(w, sharedKey, r, stored) && SparesShared(step, sharedKey, r)
    ensures HasShared(w', sharedKey, r, stored)
  {
    RouteNext(w, step, w', sharedKey, r);
    VersionsNext(w, step, w', r);
  }

  lemma {:induction false} SharedStays(ws: seq<World>, steps: seq<Step>, k: nat, i: nat)
    requires Run(ws, steps) && ws[0].shared.Some? && k < i < |ws| && SharedStore(steps[k]).Some?
    requires var (sharedKey, r, _) := SharedStore(steps[k]).value;
             forall j :: k < j < i ==> SparesShared(steps[j], sharedKey, r)
    ensures var (sharedKey, r, now) := SharedStore(steps[k]).value;
            HasShared(ws[i], sharedKey, r, now)
    decreases i
  {
    var (sharedKey, r, now) := SharedStore(steps[k]).value;
    assert NextAt(ws, steps, i - 1);
    SoundRun(ws, steps, k);
    if i == k + 1 {
      StoresItShared(ws[k], steps[k], ws[i]);
    } else {
      SharedStays(ws, steps, k, i - 1);
      KeepsShared(ws[i - 1], steps[i - 1], ws[i], sharedKey, r, now);
    }
  }

  /** What step `k` wrote to the shared store answers every process that has no local copy to answer with: a shared hit
      until its ttl is over, then a stale one until its stale time is, unless the key is written again or lost or one of
      its tags is invalidated. */
  lemma SharedReuse(ws: seq<World>, steps: seq<Step>, k: nat, i: nat, q: nat, req: Request, at: int)
    requires Run(ws, steps) && ws[0].shared.Some? && k < i < |ws| && SharedStore(steps[k]).Some?
    requires q in ws[i].processes && LookupLocal(ws[i].shared, ws[i].processes[q], req, at).Miss?
    requires var (sharedKey, r, _) := SharedStore(steps[k]).value;
             req.sharedKey == sharedKey && forall j :: k < j < i ==> SparesShared(steps[j], sharedKey, r)
    ensures var (_, r, now) := SharedStore(steps[k]).value;
            && (at < now + req.ttl * SECOND ==> Lookup(ws[i].shared, ws[i].processes[q], req, at) == SharedHit(r))
            && (now + req.ttl * SECOND <= at < now + (req.ttl + req.swr) * SECOND ==>
                  Lookup(ws[i].shared, ws[i].processes[q], req, at) == SharedStale(r))
  {
    SharedStays(ws, steps, k, i);
  }

  // ---------------------------------------------------------------- revalidations

  /** The step answers with a stale result and starts a revalidation unless there is one. */
  predicate Begins(step: Step, pid: nat, key: string) {
    step.Serve? && step.pid == pid && step.req.key == key && (step.outcome.Stale? || step.outcome.SharedStale?)
  }

  predicate Ends(step: Step, pid: nat, key: string) {
    step.Revalidate? && step.pid == pid && step.req.key == key
  }

  predicate Pending(steps: seq<Step>, k: nat, i: nat, pid: nat, key: string)
    requires k < i <= |steps|
  {
    Begins(steps[k], pid, key) && forall j :: k < j < i ==> !Ends(steps[j], pid, key)
  }

  lemma RevalidatingNext(w: World, step: Step, w': World, pid: nat, key: string)
    requires Next(w, step, w') && pid in w.processes
    ensures pid in w'.processes
    ensures key in w'.processes[pid].revalidating <==>
              Begins(step, pid, key) || (key in w.processes[pid].revalidating && !Ends(step, pid, key))
  {
  }

  lemma PendingBefore(steps: seq<Step>, k: nat, i: nat, pid: nat, key: string)
    requires k < i <= |steps| && Pending(steps, k, i, pid, key)
    ensures if k == i - 1 then Begins(steps[k], pid, key) else Pending(steps, k, i - 1, pid, key) && !Ends(steps[i - 1], pid, key)
  {
  }

  /** Over every run: a page is being revalidated exactly when a stale answer was given and no revalidation has ended since. */
  lemma {:induction false} RevalidatingIff(ws: seq<World>, steps: seq<Step>, i: nat, pid: nat, key: string)
    requires Run(ws, steps) && i < |ws| && pid in ws[0].processes
    ensures pid in ws[i].processes
    ensures key in ws[i].processes[pid].revalidating <==> exists k: nat :: k < i && Pending(steps, k, i, pid, key)
    decreases i
  {
    if i > 0 {
      var before := i - 1;
      RevalidatingIff(ws, steps, before, pid, key);
      assert NextAt(ws, steps, before);
      RevalidatingNext(ws[before], steps[before], ws[i], pid, key);
      if Begins(steps[before], pid, key) {
        assert Pending(steps, before, i, pid, key);
      } else if key in ws[i].processes[pid].revalidating {
        var k: nat :| k < before && Pending(steps, k, before, pid, key);
        assert Pending(steps, k, i, pid, key);
      } else {
        forall k: nat | k < i && Pending(steps, k, i, pid, key) ensures false {
          PendingBefore(steps, k, i, pid, key);
        }
      }
    }
  }
}
