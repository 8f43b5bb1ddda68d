/** Whole documents in the shared-cache protocol, and when serving them is as fresh as serving results. */
module DocumentProtocol {
  import opened Options
  import opened RenderCaches
  import opened TagProtocol
  import opened Utf8

  /** The entry has the document. The page handler serves it as it finds it, after a look-up that checked the versions. */
  predicate HasDocument(w: World, pid: nat, key: string, d: CachedDocument) {
    && pid in w.processes && key in w.processes[pid].l1.items
    && w.processes[pid].l1.items[key].document == Some(d)
  }

  /** What the process has under the key, if anything, is valid. */
  predicate Checked(w: World, pid: nat, key: string) {
    pid in w.processes && (key in w.processes[pid].l1.items ==> LocalValid(w.shared, w.processes[pid].l1.items[key]))
  }

  /** The content handler serves the document of an entry at the moment it has checked it. */
  predicate ServesDocument(w: World, pid: nat, key: string, d: CachedDocument) {
    HasDocument(w, pid, key, d) && Checked(w, pid, key)
  }

  /** The entry gets the document. */
  predicate Effective(c: Cache, key: string, document: Option<CachedDocument>, budget: int) {
    Attachable(c, key, document) && |document.value.body| <= budget
  }

  /** A document that an entry gets was built from the entry's own result. */
  predicate OwnAttach(w: World, step: Step) {
    step.Attach? && step.pid in w.processes ==>
      var l1 := w.processes[step.pid].l1;
      Effective(l1, step.key, step.document, step.budget) ==> step.document.value.source == l1.items[step.key].result
  }

  ghost predicate Matching(c: Cache) {
    forall k :: k in c.items && c.items[k].document.Some? ==> c.items[k].document.value.source == c.items[k].result
  }

  /** Every document was built from the result of the entry it belongs to. */
  ghost predicate AllMatching(w: World) {
    forall p :: p in w.processes ==> Matching(w.processes[p].l1)
  }

  ghost predicate OwnAttaches(ws: seq<World>, steps: seq<Step>, i: nat)
    requires i <= |steps| <= |ws|
  {
    forall n :: 0 <= n < i ==> OwnAttach(ws[n], steps[n])
  }

  /** A cache that has only lost documents and gained entries without one. */
  ghost predicate NoNewDocument(c: Cache, c': Cache) {
    forall k :: k in c'.items && c'.items[k].document.Some? ==>
      k in c.items && c'.items[k].document == c.items[k].document && c'.items[k].result == c.items[k].result
  }

  lemma StoreLocalDocuments(w: World, pid: nat, key: string, result: RenderResult, now: int, chance: Chance)
    requires pid in w.processes
    ensures NoNewDocument(w.processes[pid].l1, StoreLocal(w, pid, key, result, now, chance).processes[pid].l1)
  {
  }

  ghost predicate NothingNewAnywhere(w: World, w': World) {
    w'.processes.Keys == w.processes.Keys && forall p :: p in w.processes ==> NoNewDocument(w.processes[p].l1, w'.processes[p].l1)
  }

  lemma StoreLocalAdds(w: World, pid: nat, key: string, result: RenderResult, now: int, chance: Chance)
    requires pid in w.processes
    ensures NothingNewAnywhere(w, StoreLocal(w, pid, key, result, now, chance))
  {
    StoreLocalDocuments(w, pid, key, result, now, chance);
  }

  lemma StoreBothAdds(w: World, pid: nat, req: Request, made: Option<RenderResult>, now: int, chance: Chance)
    requires pid in w.processes
    ensures NothingNewAnywhere(w, StoreBoth(w, pid, req, made, now, chance))
  {
    if made.Some? { StoreLocalAdds(w, pid, req.key, made.value, now, chance); }
  }

  /** Only attaching gives an entry a document. */
  lemma OldDocuments(w: World, step: Step, w': World)
    requires Next(w, step, w') && !step.Attach?
    ensures NothingNewAnywhere(w, w')
  {
    match step
    case Serve(pid, req, now, outcome, chance) =>
      if outcome.SharedHit? || outcome.SharedStale? {
        StoreLocalAdds(w.(shared := Touch(w.shared, chance.touched)), pid, req.key, outcome.result, now, chance);
      }
    case Flight(pid, req, now, _, made, chance) => StoreBothAdds(w.(shared := Touch(w.shared, chance.touched)), pid, req, made, now, chance);
    case Revalidate(pid, req, now, made, chance) => StoreBothAdds(w, pid, req, made, now, chance);
    case StoreContent(pid, key, now, made, chance) => StoreLocalAdds(w, pid, key, made.value, now, chance);
    case _ => OthersAdd(w, step, w');
  }

  lemma OthersAdd(w: World, step: Step, w': World)
    requires Next(w, step, w') && (step.DropLocal? || step.Bump? || step.Lose?)
    ensures NothingNewAnywhere(w, w')
  {
  }

  lemma AttachDocuments(w: World, step: Step, w': World)
    requires Next(w, step, w') && step.Attach?
    ensures var l1, l1' := w.processes[step.pid].l1, w'.processes[step.pid].l1;
            if Effective(l1, step.key, step.document, step.budget) then
              && step.key in l1'.items && l1'.items[step.key] == l1.items[step.key].(document := step.document)
              && forall k :: k in l1'.items && k != step.key && l1'.items[k].document.Some? ==> k in l1.items && l1'.items[k] == l1.items[k]
            else NoNewDocument(l1, l1')
    ensures w'.processes.Keys == w.processes.Keys && forall p :: p in w.processes && p != step.pid ==> w'.processes[p] == w.processes[p]
  {
  }

  /** One step keeps the documents matching if and only if it attaches an entry's own. */
  lemma MatchingNext(w: World, step: Step, w': World)
    requires Next(w, step, w') && AllMatching(w)
    ensures AllMatching(w') <==> OwnAttach(w, step)
  {
    if step.Attach? {
      AttachDocuments(w, step, w');
      assert Matching(w.processes[step.pid].l1);
      MatchingAttach(w, step, w');
    } else {
      OldDocuments(w, step, w');
      forall p | p in w'.processes ensures Matching(w'.processes[p].l1) {
        assert Matching(w.processes[p].l1);
      }
    }
  }

  lemma MatchingAttach(w: World, step: Step, w': World)
    requires Next(w, step, w') && step.Attach? && AllMatching(w)
    ensures AllMatching(w') <==> OwnAttach(w, step)
  {
    AttachDocuments(w, step, w');
    var l1, l1' := w.processes[step.pid].l1, w'.processes[step.pid].l1;
    assert Matching(l1);
    assert Matching(l1') <==> OwnAttach(w, step);
    forall p | p in w'.processes && p != step.pid ensures Matching(w'.processes[p].l1) {
      assert Matching(w.processes[p].l1);
    }
  }

  lemma InitMatching(w: World)
    requires Init(w)
    ensures AllMatching(w)
  {
  }

  /** Over every run: all documents match their entries in every state if and only if every step that attaches a document
      attaches one built from the entry's own result. */
  lemma {:induction false} MatchingIff(ws: seq<World>, steps: seq<Step>, i: nat)
    requires Run(ws, steps) && i < |ws|
    ensures (forall n :: 0 <= n <= i ==> AllMatching(ws[n])) <==> OwnAttaches(ws, steps, i)
    decreases i
  {
    if i == 0 {
      InitMatching(ws[0]);
    } else {
      MatchingIff(ws, steps, i - 1);
      assert NextAt(ws, steps, i - 1);
      if AllMatching(ws[i - 1]) {
        MatchingNext(ws[i - 1], steps[i - 1], ws[i]);
      }
    }
  }

  lemma EntryFresh(w: World, pid: nat, key: string, t: string, p: nat)
    requires Sound(w) && pid in w.processes && key in w.processes[pid].l1.items
    requires LocalValid(w.shared, w.processes[pid].l1.items[key]) && t in Tags(w.processes[pid].l1.items[key].result)
    requires (w.shared.Some? || p == pid) && (p, t) in w.completed
    ensures w.completed[(p, t)] < w.processes[pid].l1.items[key].result.rendered
  {
    var e := w.processes[pid].l1.items[key];
    assert LocalSound(w.completed, w.shared, pid, e);
    if w.shared.Some? {
      assert t in e.tagVersions && e.tagVersions[t] == w.shared.value.versions[t];
    }
  }

  // ---------------------------------------------------------------- entries between a check and their use

  /** A page request whose look-up or flight gives it a result for the key. */
  predicate LooksUp(step: Step, pid: nat, key: string) {
    match step
    case Serve(p, req, _, outcome, _) => p == pid && req.key == key && !outcome.Miss?
    case Flight(p, req, _, found, made, _) => p == pid && req.key == key && (found.Some? || made.Some?)
    case _ => false
  }

  lemma DefaultsKeep(s: Shared, touched: set<string>, versions: map<string, string>)
    ensures UpToDate(Defaulted(s, touched), versions) <==> UpToDate(s, versions)
  {
    forall t ensures CurrentVersion(Defaulted(s, touched), t) == CurrentVersion(s, t) {
    }
  }

  lemma StoredValid(w: World, pid: nat, key: string, result: RenderResult, now: int, chance: Chance)
    requires pid in w.processes
    ensures Checked(StoreLocal(w, pid, key, result, now, chance), pid, key)
  {
    if w.shared.Some? {
      DefaultsKeep(w.shared.value, Tags(result), VersionsFor(w.shared, result));
    }
  }

  lemma StoredBothValid(w: World, pid: nat, req: Request, made: Option<RenderResult>, now: int, chance: Chance)
    requires pid in w.processes && made.Some?
    ensures Checked(StoreBoth(w, pid, req, made, now, chance), pid, req.key)
  {
    var w1 := StoreLocal(w, pid, req.key, made.value, now, chance);
    StoredValid(w, pid, req.key, made.value, now, chance);
    if w.shared.Some? {
      DefaultsKeep(w1.shared.value, Tags(made.value), w1.processes[pid].l1.items[req.key].tagVersions);
    }
  }

  lemma LookupChecks(w: World, step: Step, w': World, pid: nat, key: string)
    requires Next(w, step, w') && LooksUp(step, pid, key)
    ensures Checked(w, pid, key) || Checked(w', pid, key)
  {
    match step
    case Serve(_, req, now, outcome, chance) =>
      if outcome.SharedHit? || outcome.SharedStale? {
        StoredValid(w.(shared := Touch(w.shared, chance.touched)), pid, key, outcome.result, now, chance);
      }
    case Flight(_, req, now, found, made, chance) =>
      if made.Some? {
        StoredBothValid(w.(shared := Touch(w.shared, chance.touched)), pid, req, made, now, chance);
      }
  }

  /** The entry holds the result it held before. */
  predicate SameResult(w: World, w': World, pid: nat, key: string) {
    && pid in w.processes && pid in w'.processes && key in w.processes[pid].l1.items && key in w'.processes[pid].l1.items
    && w'.processes[pid].l1.items[key].result == w.processes[pid].l1.items[key].result
  }

  lemma OthersStay(w: World, pid: nat, key: string, result: RenderResult, now: int, chance: Chance, p: nat, k: string)
    requires pid in w.processes && p in w.processes && (p != pid || k != key)
    ensures var w' := StoreLocal(w, pid, key, result, now, chance);
            p in w'.processes && (k in w'.processes[p].l1.items ==> SameResult(w, w', p, k))
  {
  }

  /** A step leaves an entry its result, or stores one that is valid. */
  lemma EntryNext(w: World, step: Step, w': World, pid: nat, key: string)
    requires Next(w, step, w') && pid in w.processes
    ensures pid in w'.processes && (key in w'.processes[pid].l1.items ==> SameResult(w, w', pid, key) || Checked(w', pid, key))
  {
    match step
    case Serve(p, req, now, outcome, chance) =>
      if outcome.SharedHit? || outcome.SharedStale? {
        StoresOne(w.(shared := Touch(w.shared, chance.touched)), p, req.key, outcome.result, now, chance, pid, key);
      }
    case Flight(p, req, now, _, made, chance) => StoresTwo(w.(shared := Touch(w.shared, chance.touched)), p, req, made, now, chance, pid, key);
    case Revalidate(p, req, now, made, chance) => StoresTwo(w, p, req, made, now, chance, pid, key);
    case StoreContent(p, k, now, made, chance) => StoresOne(w, p, k, made.value, now, chance, pid, key);
    case _ => OthersLeave(w, step, w', pid, key);
  }

  lemma StoresOne(w: World, pid: nat, key: string, result: RenderResult, now: int, chance: Chance, p: nat, k: string)
    requires pid in w.processes && p in w.processes
    ensures var w' := StoreLocal(w, pid, key, result, now, chance);
            p in w'.processes && (k in w'.processes[p].l1.items ==> SameResult(w, w', p, k) || Checked(w', p, k))
  {
    if p == pid && k == key {
      StoredValid(w, pid, key, result, now, chance);
    } else {
      OthersStay(w, pid, key, result, now, chance, p, k);
    }
  }

  lemma StoresTwo(w: World, pid: nat, req: Request, made: Option<RenderResult>, now: int, chance: Chance, p: nat, k: string)
    requires pid in w.processes && p in w.processes
    ensures var w' := StoreBoth(w, pid, req, made, now, chance);
            p in w'.processes && (k in w'.processes[p].l1.items ==> SameResult(w, w', p, k) || Checked(w', p, k))
  {
    if made.Some? {
      if p == pid && k == req.key {
        StoredBothValid(w, pid, req, made, now, chance);
      } else {
        OthersStay(w, pid, req.key, made.value, now, chance, p, k);
      }
    }
  }

  lemma OthersLeave(w: World, step: Step, w': World, pid: nat, key: string)
    requires Next(w, step, w') && pid in w.processes
    requires step.Attach? || step.DropLocal? || step.Bump? || step.Lose?
    ensures pid in w'.processes && (key in w'.processes[pid].l1.items ==> SameResult(w, w', pid, key))
  {
  }

  /** Once what is under a key has been checked, it stays newer than the invalidations completed before the check. */
  lemma {:induction false} StaysFresh(ws: seq<World>, steps: seq<Step>, j: nat, m: nat, i: nat, p: nat, t: string, q: nat, key: string)
    requires Run(ws, steps) && j < m <= i < |ws|
    requires Completes(ws[j], steps[j], p, t) && Checked(ws[m], q, key)
    requires ws[0].shared.Some? || p == q
    ensures q in ws[i].processes
    ensures key in ws[i].processes[q].l1.items && t in Tags(ws[i].processes[q].l1.items[key].result) ==>
              j < ws[i].processes[q].l1.items[key].result.rendered
    decreases i
  {
    SoundRun(ws, steps, i);
    CompletedRun(ws, steps, j, i, p, t);
    if i > m {
      StaysFresh(ws, steps, j, m, i - 1, p, t, q, key);
      assert NextAt(ws, steps, i - 1);
      EntryNext(ws[i - 1], steps[i - 1], ws[i], q, key);
    }
    if Checked(ws[i], q, key) {
      CheckedFresh(ws[i], q, key, t, p);
    }
  }

  lemma CheckedFresh(w: World, pid: nat, key: string, t: string, p: nat)
    requires Sound(w) && Checked(w, pid, key)
    requires (w.shared.Some? || p == pid) && (p, t) in w.completed
    ensures key in w.processes[pid].l1.items && t in Tags(w.processes[pid].l1.items[key].result) ==>
              w.completed[(p, t)] < w.processes[pid].l1.items[key].result.rendered
  {
    if key in w.processes[pid].l1.items && t in Tags(w.processes[pid].l1.items[key].result) {
      EntryFresh(w, pid, key, t, p);
    }
  }

  /** Coherence of documents. Every document attached was built from the result of its entry; step `j` completed an
      invalidation of `t`; what the process has under the key was valid at some later moment `m`. Then the document the
      entry has at any moment from then on, if it was built from a result with that tag, was built from one rendered
      after `j`. The content handler serves at the moment of its check, the page handler after its look-up. */
  lemma DocumentsCoherent(ws: seq<World>, steps: seq<Step>, j: nat, m: nat, i: nat, p: nat, t: string, q: nat, key: string, d: CachedDocument)
    returns (k: nat)
    requires Run(ws, steps) && j < m <= i < |ws| && OwnAttaches(ws, steps, i)
    requires Completes(ws[j], steps[j], p, t) && Checked(ws[m], q, key)
    requires HasDocument(ws[i], q, key, d) && t in Tags(d.source)
    requires ws[0].shared.Some? || p == q
    ensures j < k < i && Renders(steps[k], d.source)
  {
    MatchingIff(ws, steps, i);
    assert AllMatching(ws[i]) && Matching(ws[i].processes[q].l1);
    KnownRun(ws, steps, i);
    assert CacheKnown(ws[i].processes[q].l1, steps, i);
    StaysFresh(ws, steps, j, m, i, p, t, q, key);
    k := d.source.rendered;
  }

  lemma CheckedAround(ws: seq<World>, steps: seq<Step>, m: nat, q: nat, key: string)
    requires Run(ws, steps) && m < |steps| && LooksUp(steps[m], q, key)
    ensures Checked(ws[m], q, key) || Checked(ws[m + 1], q, key)
  {
    assert NextAt(ws, steps, m);
    LookupChecks(ws[m], steps[m], ws[m + 1], q, key);
  }

  /** Served by a page request that looked the page up at step `m`, after the invalidation. */
  lemma PageDocumentsCoherent(ws: seq<World>, steps: seq<Step>, j: nat, m: nat, i: nat, p: nat, t: string, q: nat, key: string, d: CachedDocument)
    returns (k: nat)
    requires Run(ws, steps) && j < m < i < |ws| && OwnAttaches(ws, steps, i)
    requires Completes(ws[j], steps[j], p, t) && LooksUp(steps[m], q, key)
    requires HasDocument(ws[i], q, key, d) && t in Tags(d.source)
    requires ws[0].shared.Some? || p == q
    ensures j < k < i && Renders(steps[k], d.source)
  {
    CheckedAround(ws, steps, m, q, key);
    if Checked(ws[m], q, key) {
      k := DocumentsCoherent(ws, steps, j, m, i, p, t, q, key, d);
    } else {
      k := DocumentsCoherent(ws, steps, j, m + 1, i, p, t, q, key, d);
    }
  }

  // ---------------------------------------------------------------- a document attached late

  function One(t: string, rendered: nat): RenderResult {
    RenderResult("", [t], rendered)
  }

  ghost function Alone(l1: Cache, clock: nat, completed: map<(nat, string), nat>): World {
    World(map[0 := Process(l1, 2, {})], None, clock, completed)
  }

  ghost function First(t: string): Cache {
    AfterSet(EMPTY, None, "k", One(t, 0), map[], 0)
  }

  ghost function Dropped(t: string): Cache {
    AfterInvalidate(First(t), [t])
  }

  ghost function Second(t: string): Cache {
    AfterSet(Dropped(t), None, "k", One(t, 2), map[], 0)
  }

  /** A document built from the first result, on the entry of the second. */
  function Old(t: string, body: Bytes): CachedDocument {
    CachedDocument(body, One(t, 0))
  }

  ghost function Late(t: string, body: Bytes): Cache {
    var c := Second(t);
    c.(items := c.items["k" := CacheEntry(One(t, 2), Some(Old(t, body)), 0, map[])], documentBytes := |body|)
  }

  const QUIET: Chance := Chance(None, true, {})

  /** A request for the page that misses and renders it. */
  function Stores(t: string, rendered: nat): Step {
    Flight(0, Request("k", "s", 1, 0), 0, None, Some(One(t, rendered)), QUIET)
  }

  lemma RunsOn(ws: seq<World>, steps: seq<Step>, w: World, step: Step, w': World) returns (ws': seq<World>, steps': seq<Step>)
    requires Run(ws, steps) && ws[|steps|] == w && (forall i :: 0 <= i < |ws| ==> ws[i].shared.None?) && w'.shared.None?
    ensures Next(w, step, w') ==> Run(ws', steps')
    ensures steps' == steps + [step] && |ws'| == |steps'| + 1 && ws'[|steps'|] == w' && forall i :: 0 <= i < |ws'| ==> ws'[i].shared.None?
  {
    ws', steps' := OneMore(ws, steps, w, step, w');
  }

  lemma FirstRun(t: string) returns (ws: seq<World>, steps: seq<Step>)
    requires t != ""
    ensures Run(ws, steps) && steps == [Stores(t, 0)]
    ensures ws[1] == Alone(First(t), 1, map[]) && forall i :: 0 <= i < |ws| ==> ws[i].shared.None?
  {
    StoresAlone(EMPTY, 0, map[], t, 0);
    ws, steps := RunsOn([Alone(EMPTY, 0, map[])], [], Alone(EMPTY, 0, map[]), Stores(t, 0), Alone(First(t), 1, map[]));
  }

  lemma DroppedRun(before: seq<World>, done: seq<Step>, t: string) returns (ws: seq<World>, steps: seq<Step>)
    requires t != "" && Run(before, done) && |done| == 1
    requires before[1] == Alone(First(t), 1, map[]) && forall i :: 0 <= i < |before| ==> before[i].shared.None?
    ensures Run(ws, steps) && steps == done + [DropLocal(0, [t])]
    ensures ws[2] == Alone(Dropped(t), 2, map[(0, t) := 1]) && forall i :: 0 <= i < |ws| ==> ws[i].shared.None?
  {
    DropsAlone(t);
    ws, steps := RunsOn(before, done, Alone(First(t), 1, map[]), DropLocal(0, [t]), Alone(Dropped(t), 2, map[(0, t) := 1]));
  }

  /** A first request has rendered the page; its tag is invalidated; a second request renders it anew; then the first one
      attaches its document. Every later hit serves the document from before the invalidation. */
  lemma LateDocument(t: string, body: Bytes) returns (ws: seq<World>, steps: seq<Step>)
    requires t != "" && |body| <= MAX_DOCUMENT
    ensures Run(ws, steps) && steps == [Stores(t, 0), DropLocal(0, [t]), Stores(t, 2), Attach(0, "k", Some(Old(t, body)), DEFAULT_BUDGET)]
    ensures Completes(ws[1], steps[1], 0, t)
    ensures ServesDocument(ws[4], 0, "k", Old(t, body)) && t in Tags(Old(t, body).source) && Renders(steps[0], Old(t, body).source)
  {
    ws, steps := FirstRun(t);
    ws, steps := DroppedRun(ws, steps, t);
    ws, steps := SecondRun(ws, steps, t);
    AttachesAlone(t, body);
    var w3, w4 := Alone(Second(t), 3, map[(0, t) := 1]), Alone(Late(t, body), 4, map[(0, t) := 1]);
    ws, steps := RunsOn(ws, steps, w3, Attach(0, "k", Some(Old(t, body)), DEFAULT_BUDGET), w4);
    TagsOfOne(t);
    assert [t][0] == t;
  }

  lemma SecondRun(before: seq<World>, done: seq<Step>, t: string) returns (ws: seq<World>, steps: seq<Step>)
    requires t != "" && Run(before, done) && |done| == 2
    requires before[2] == Alone(Dropped(t), 2, map[(0, t) := 1]) && forall i :: 0 <= i < |before| ==> before[i].shared.None?
    ensures Run(ws, steps) && steps == done + [Stores(t, 2)]
    ensures ws[3] == Alone(Second(t), 3, map[(0, t) := 1]) && forall i :: 0 <= i < |ws| ==> ws[i].shared.None?
  {
    DropsAlone(t);
    StoresAlone(Dropped(t), 2, map[(0, t) := 1], t, 2);
    ws, steps := RunsOn(before, done, Alone(Dropped(t), 2, map[(0, t) := 1]), Stores(t, 2), Alone(Second(t), 3, map[(0, t) := 1]));
  }

  lemma StoresAlone(l1: Cache, clock: nat, completed: map<(nat, string), nat>, t: string, rendered: nat)
    requires l1.items == map[] && rendered == clock
    ensures Next(Alone(l1, clock, completed), Stores(t, rendered),
                 Alone(AfterSet(l1, None, "k", One(t, rendered), map[], 0), clock + 1, completed))
  {
    var w, r := Alone(l1, clock, completed), One(t, rendered);
    var l1' := AfterSet(l1, None, "k", r, map[], 0);
    SetAlone(l1, clock, completed, l1');
    assert StoreLocal(w, 0, "k", r, 0, QUIET) == Alone(l1', clock, completed);
    assert Recheck(None, w.processes[0], Request("k", "s", 1, 0), 0).None?;
  }

  lemma SetAlone(l1: Cache, clock: nat, completed: map<(nat, string), nat>, l1': Cache)
    ensures WithL1(Alone(l1, clock, completed), 0, l1') == Alone(l1', clock, completed)
  {
    assert WithL1(Alone(l1, clock, completed), 0, l1').processes == map[0 := Process(l1', 2, {})];
  }

  lemma DropsAlone(t: string)
    requires t != ""
    ensures Next(Alone(First(t), 1, map[]), DropLocal(0, [t]), Alone(Dropped(t), 2, map[(0, t) := 1]))
    ensures Dropped(t).items == map[]
  {
    var w1 := WithL1(Alone(First(t), 1, map[]), 0, Dropped(t));
    assert Listed([t]) == {t} by { assert [t][0] == t; }
    assert w1.processes == map[0 := Process(Dropped(t), 2, {})];
    assert Completed(w1, 0, {t}).completed.Keys == {(0, t)};
    assert Completed(w1, 0, {t}).completed == map[(0, t) := 1];
    assert t in Tags(One(t, 0)) by { assert [t][0] == t; }
    assert t in First(t).tags && "k" in First(t).tags[t] && "k" in Doomed(First(t), [t]) && Dropped(t).items == map[];
  }

  lemma SecondAlone(t: string)
    requires t != ""
    ensures Second(t).items == map["k" := CacheEntry(One(t, 2), None, 0, map[])]
  {
    DropsAlone(t);
  }

  lemma AttachesTo(c: Cache, e: CacheEntry, document: CachedDocument, c': Cache)
    requires c.items == map["k" := e] && e.document.None? && |document.body| <= MAX_DOCUMENT
    requires c' == c.(items := c.items["k" := e.(document := Some(document))], documentBytes := |document.body|)
    ensures DocumentStep(c, c', DEFAULT_BUDGET, "k", Some(document))
  {
    OneDocument(c.items, "k", e.(document := Some(document)));
  }

  lemma AttachesAlone(t: string, body: Bytes)
    requires t != "" && |body| <= MAX_DOCUMENT
    ensures Next(Alone(Second(t), 3, map[(0, t) := 1]), Attach(0, "k", Some(Old(t, body)), DEFAULT_BUDGET),
                 Alone(Late(t, body), 4, map[(0, t) := 1]))
  {
    SecondAlone(t);
    AttachesTo(Second(t), CacheEntry(One(t, 2), None, 0, map[]), Old(t, body), Late(t, body));
    SetAlone(Second(t), 3, map[(0, t) := 1], Late(t, body));
  }
}
