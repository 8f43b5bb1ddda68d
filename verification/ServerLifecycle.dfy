/** Admission, load shedding and drain. */
module ServerLifecycle {
  import opened Collections

  /** A request inside the server's handler: not under load shedding, holding its part of the lease, or past it. */
  datatype Frame = Outside | Leased | Unleased

  /** A handler running on its own under the timeout middleware; it may outlive its request's frame. */
  datatype Handler = Handler(rid: nat, holds: bool)

  /** `wg` is the work counter, `occupied` the number of slots taken and `leases` the reference counts of the leases
      made so far; `released` is the history of slots given back. */
  datatype Work = Work(limit: nat, stopping: bool, wg: int, frames: map<nat, Frame>, handlers: map<nat, Handler>, tasks: set<nat>,
                       leases: map<nat, int>, occupied: int, released: seq<nat>, next: nat)

  datatype WorkStep =
    | Enter
    | Acquire(rid: nat)
    | Spawn(rid: nat)
    | SpawnWithin(hid: nat)
    | HandlerUnlease(hid: nat)
    | HandlerDone(hid: nat)
    | FrameUnlease(rid: nat)
    | FrameDone(rid: nat)
    | StartTask
    | TaskDone(task: nat)

  predicate WorkEnabled(w: Work, step: WorkStep) {
    match step
    case Enter => true
    case Acquire(rid) => rid in w.frames && w.frames[rid].Outside? && rid !in w.leases
    case Spawn(rid) => rid in w.frames && !w.frames[rid].Unleased? && (w.frames[rid].Leased? ==> rid in w.leases)
    case SpawnWithin(hid) => hid in w.handlers && (w.handlers[hid].holds ==> w.handlers[hid].rid in w.leases)
    case HandlerUnlease(hid) => hid in w.handlers && w.handlers[hid].holds && w.handlers[hid].rid in w.leases
    case HandlerDone(hid) => hid in w.handlers && !w.handlers[hid].holds
    case FrameUnlease(rid) => rid in w.frames && w.frames[rid].Leased? && rid in w.leases
    case FrameDone(rid) => rid in w.frames && !w.frames[rid].Leased?
    case StartTask => true
    case TaskDone(task) => task in w.tasks
  }

  /** One reference of a lease is given up; the last one gives the slot back. */
  function LeaseDone(w: Work, rid: nat): Work
    requires rid in w.leases
  {
    var refs := w.leases[rid] - 1;
    var w' := w.(leases := w.leases[rid := refs]);
    if refs == 0 then w'.(occupied := w.occupied - 1, released := w.released + [rid]) else w'
  }

  /** The timeout middleware starts a handler, which shares the lease of whatever runs the middleware. */
  function Spawned(w: Work, rid: nat, holds: bool): Work
    requires holds ==> rid in w.leases
  {
    if w.stopping then w
    else w.(wg := w.wg + 1, handlers := w.handlers[w.next := Handler(rid, holds)], next := w.next + 1,
            leases := if holds then w.leases[rid := w.leases[rid] + 1] else w.leases)
  }

  /** Nothing new is admitted once the server is stopping; a request that finds no free slot is turned away. */
  function WorkDo(w: Work, step: WorkStep): Work
    requires WorkEnabled(w, step)
  {
    match step
    case Enter =>
      if w.stopping then w else w.(wg := w.wg + 1, frames := w.frames[w.next := Outside], next := w.next + 1)
    case Acquire(rid) =>
      if w.occupied >= w.limit then w
      else w.(occupied := w.occupied + 1, leases := w.leases[rid := 1], frames := w.frames[rid := Leased])
    case Spawn(rid) => Spawned(w, rid, w.frames[rid].Leased?)
    case SpawnWithin(hid) => Spawned(w, w.handlers[hid].rid, w.handlers[hid].holds)
    case HandlerUnlease(hid) => LeaseDone(w.(handlers := w.handlers[hid := w.handlers[hid].(holds := false)]), w.handlers[hid].rid)
    case HandlerDone(hid) => w.(wg := w.wg - 1, handlers := w.handlers - {hid})
    case FrameUnlease(rid) => LeaseDone(w.(frames := w.frames[rid := Unleased]), rid)
    case FrameDone(rid) => w.(wg := w.wg - 1, frames := w.frames - {rid})
    case StartTask => if w.stopping then w else w.(wg := w.wg + 1, tasks := w.tasks + {w.next}, next := w.next + 1)
    case TaskDone(task) => w.(wg := w.wg - 1, tasks := w.tasks - {task})
  }

  /** The request for which a step starts a handler, and whether the handler shares its lease. */
  predicate Spawns(step: WorkStep) {
    step.Spawn? || step.SpawnWithin?
  }

  function SpawnFor(w: Work, step: WorkStep): Handler
    requires Spawns(step) && WorkEnabled(w, step)
  {
    if step.Spawn? then Handler(step.rid, w.frames[step.rid].Leased?) else w.handlers[step.hid]
  }

  predicate WorkInit(w: Work) {
    && !w.stopping && w.wg == 0 && w.frames == map[] && w.handlers == map[] && w.tasks == {}
    && w.leases == map[] && w.occupied == 0 && w.released == []
  }

  // ---------------------------------------------------------------- the work counter

  predicate Numbered(w: Work) {
    && (forall i :: i in w.frames ==> i < w.next)
    && (forall i :: i in w.handlers ==> i < w.next && w.handlers[i].rid < w.next)
    && (forall i :: i in w.tasks ==> i < w.next)
    && (forall i :: i in w.leases ==> i < w.next)
  }

  /** The counter counts the frames, handlers and tasks that have been admitted and have not finished. */
  predicate Counted(w: Work) {
    w.wg == |w.frames| + |w.handlers| + |w.tasks|
  }

  lemma NumberedKept(w: Work, step: WorkStep)
    requires Numbered(w) && WorkEnabled(w, step)
    ensures Numbered(WorkDo(w, step))
  {
  }

  /** What a step does to the frames. */
  function FramesAfter(w: Work, step: WorkStep): map<nat, Frame> {
    match step
    case Enter => if w.stopping then w.frames else w.frames[w.next := Outside]
    case Acquire(rid) => if w.occupied >= w.limit then w.frames else w.frames[rid := Leased]
    case FrameUnlease(rid) => w.frames[rid := Unleased]
    case FrameDone(rid) => w.frames - {rid}
    case _ => w.frames
  }

  lemma FramesThen(w: Work, step: WorkStep)
    requires WorkEnabled(w, step)
    ensures WorkDo(w, step).frames == FramesAfter(w, step)
  {
  }

  lemma FramesChange(w: Work, step: WorkStep)
    requires w.next !in w.frames && WorkEnabled(w, step)
    ensures |WorkDo(w, step).frames| == |w.frames| + if step.Enter? && !w.stopping then 1 else if step.FrameDone? then -1 else 0
  {
    FramesThen(w, step);
    match step
    case Enter => Inserted(w.frames, w.next, Outside);
    case Acquire(rid) => Inserted(w.frames, rid, Leased);
    case FrameUnlease(rid) => Inserted(w.frames, rid, Unleased);
    case FrameDone(rid) => Removed(w.frames, rid);
    case _ =>
  }

  lemma HandlersChange(w: Work, step: WorkStep)
    requires w.next !in w.handlers && WorkEnabled(w, step)
    ensures |WorkDo(w, step).handlers| == |w.handlers| + if Spawns(step) && !w.stopping then 1 else if step.HandlerDone? then -1 else 0
  {
    var handlers := WorkDo(w, step).handlers;
    if Spawns(step) && !w.stopping {
      Inserted(w.handlers, w.next, handlers[w.next]);
    } else if step.HandlerUnlease? {
      Inserted(w.handlers, step.hid, handlers[step.hid]);
    } else if step.HandlerDone? {
      Removed(w.handlers, step.hid);
    }
  }

  /** What a step does to background work. */
  function TasksAfter(w: Work, step: WorkStep): set<nat> {
    match step
    case StartTask => if w.stopping then w.tasks else w.tasks + {w.next}
    case TaskDone(task) => w.tasks - {task}
    case _ => w.tasks
  }

  lemma TasksThen(w: Work, step: WorkStep)
    requires WorkEnabled(w, step)
    ensures WorkDo(w, step).tasks == TasksAfter(w, step)
  {
  }

  lemma TasksChange(w: Work, step: WorkStep)
    requires w.next !in w.tasks && WorkEnabled(w, step)
    ensures |WorkDo(w, step).tasks| == |w.tasks| + if step.StartTask? && !w.stopping then 1 else if step.TaskDone? then -1 else 0
  {
    TasksThen(w, step);
  }

  lemma CounterChange(w: Work, step: WorkStep)
    requires WorkEnabled(w, step)
    ensures WorkDo(w, step).wg == w.wg + if (step.Enter? || Spawns(step) || step.StartTask?) && !w.stopping then 1
                                         else if step.FrameDone? || step.HandlerDone? || step.TaskDone? then -1 else 0
  {
  }

  lemma CountedKept(w: Work, step: WorkStep)
    requires Numbered(w) && Counted(w) && WorkEnabled(w, step)
    ensures Counted(WorkDo(w, step))
  {
    FramesChange(w, step);
    HandlersChange(w, step);
    TasksChange(w, step);
    CounterChange(w, step);
  }

  // ---------------------------------------------------------------- leases

  datatype Owner = FrameOwner | HandlerOwner(hid: nat)

  /** The parts of the request that hold its lease: its frame and its handlers, also those that have timed out. */
  function Owners(w: Work, rid: nat): set<Owner> {
    (if rid in w.frames && w.frames[rid].Leased? then {FrameOwner} else {})
    + set hid | hid in w.handlers && w.handlers[hid] == Handler(rid, true) :: HandlerOwner(hid)
  }

  /** Every lease counts its owners. */
  ghost predicate LeasesCount(w: Work) {
    forall rid {:trigger Owners(w, rid)} :: rid in w.leases ==> w.leases[rid] == |Owners(w, rid)|
  }

  /** What owns a lease has one. */
  predicate OwnersLeased(w: Work) {
    && (forall rid :: rid in w.frames ==> (w.frames[rid].Outside? <==> rid !in w.leases))
    && (forall hid :: hid in w.handlers && w.handlers[hid].holds ==> w.handlers[hid].rid in w.leases)
  }

  /** The requests that occupy a slot: those whose lease has an owner. */
  function Holders(w: Work): set<nat> {
    set rid | rid in w.leases && w.leases[rid] > 0
  }

  ghost predicate SlotsCount(w: Work) {
    && w.occupied == |Holders(w)| <= w.limit
    && (forall i, j :: 0 <= i < j < |w.released| ==> w.released[i] != w.released[j])
    && (forall rid :: rid in w.released <==> rid in w.leases && w.leases[rid] <= 0)
  }

  ghost predicate LeaseInv(w: Work) {
    Numbered(w) && LeasesCount(w) && OwnersLeased(w) && SlotsCount(w)
  }

  lemma Unowned(w: Work, rid: nat)
    requires OwnersLeased(w) && rid !in w.leases
    ensures Owners(w, rid) == {}
  {
  }

  /** What a step does to the owners of a request's lease. */
  function OwnersAfter(w: Work, step: WorkStep, rid: nat, owners: set<Owner>): set<Owner>
    requires WorkEnabled(w, step)
  {
    match step
    case Acquire(r) => if r == rid && w.occupied < w.limit then owners + {FrameOwner} else owners
    case Spawn(_) => if SpawnFor(w, step) == Handler(rid, true) && !w.stopping then owners + {HandlerOwner(w.next)} else owners
    case SpawnWithin(_) => if SpawnFor(w, step) == Handler(rid, true) && !w.stopping then owners + {HandlerOwner(w.next)} else owners
    case HandlerUnlease(hid) => if w.handlers[hid].rid == rid then owners - {HandlerOwner(hid)} else owners
    case FrameUnlease(r) => if r == rid then owners - {FrameOwner} else owners
    case _ => owners
  }

  lemma OwnerChange(w: Work, step: WorkStep, rid: nat, hid: nat)
    requires Numbered(w) && WorkEnabled(w, step)
    ensures HandlerOwner(hid) in Owners(WorkDo(w, step), rid) <==> HandlerOwner(hid) in OwnersAfter(w, step, rid, Owners(w, rid))
  {
  }

  lemma OwnersChange(w: Work, step: WorkStep, rid: nat)
    requires Numbered(w) && WorkEnabled(w, step)
    ensures Owners(WorkDo(w, step), rid) == OwnersAfter(w, step, rid, Owners(w, rid))
  {
    var owners, after := Owners(WorkDo(w, step), rid), OwnersAfter(w, step, rid, Owners(w, rid));
    assert FrameOwner in owners <==> FrameOwner in after;
    forall o: Owner ensures o in owners <==> o in after {
      if o.HandlerOwner? { OwnerChange(w, step, rid, o.hid); }
    }
  }

  /** The part that gains or gives up a reference did not or did own the lease. */
  predicate Mover(w: Work, step: WorkStep, rid: nat, owners: set<Owner>)
    requires WorkEnabled(w, step)
  {
    match step
    case Acquire(r) => r == rid ==> owners == {}
    case Spawn(r) => HandlerOwner(w.next) !in owners && (r == rid && w.frames[r].Leased? ==> FrameOwner in owners)
    case SpawnWithin(hid) => HandlerOwner(w.next) !in owners && (w.handlers[hid] == Handler(rid, true) ==> HandlerOwner(hid) in owners)
    case HandlerUnlease(hid) => w.handlers[hid].rid == rid ==> HandlerOwner(hid) in owners
    case FrameUnlease(r) => r == rid ==> FrameOwner in owners
    case _ => true
  }

  lemma MoverOwns(w: Work, step: WorkStep, rid: nat)
    requires Numbered(w) && OwnersLeased(w) && WorkEnabled(w, step)
    ensures Mover(w, step, rid, Owners(w, rid))
  {
    if step.Acquire? && step.rid == rid { Unowned(w, rid); }
  }

  /** What a step does to the references of a lease. */
  function RefsAfter(w: Work, step: WorkStep, rid: nat, refs: int): int
    requires WorkEnabled(w, step)
  {
    match step
    case Acquire(r) => if r == rid && w.occupied < w.limit then 1 else refs
    case Spawn(_) => if SpawnFor(w, step) == Handler(rid, true) && !w.stopping then refs + 1 else refs
    case SpawnWithin(_) => if SpawnFor(w, step) == Handler(rid, true) && !w.stopping then refs + 1 else refs
    case HandlerUnlease(hid) => if w.handlers[hid].rid == rid then refs - 1 else refs
    case FrameUnlease(r) => if r == rid then refs - 1 else refs
    case _ => refs
  }

  lemma RefsThen(w: Work, step: WorkStep, rid: nat)
    requires WorkEnabled(w, step) && rid in WorkDo(w, step).leases
    ensures rid !in w.leases ==> step == Acquire(rid) && w.occupied < w.limit
    ensures WorkDo(w, step).leases[rid] == RefsAfter(w, step, rid, if rid in w.leases then w.leases[rid] else 0)
  {
  }

  lemma OwnersMove(w: Work, step: WorkStep, rid: nat, owners: set<Owner>)
    requires WorkEnabled(w, step) && Mover(w, step, rid, owners)
    ensures |OwnersAfter(w, step, rid, owners)| == RefsAfter(w, step, rid, |owners|)
  {
  }

  lemma CountMoves(w: Work, step: WorkStep, rid: nat, owners: set<Owner>)
    requires WorkEnabled(w, step) && Mover(w, step, rid, owners) && rid in WorkDo(w, step).leases
    requires rid in w.leases ==> w.leases[rid] == |owners|
    ensures WorkDo(w, step).leases[rid] == |OwnersAfter(w, step, rid, owners)|
  {
    RefsThen(w, step, rid);
    OwnersMove(w, step, rid, owners);
  }

  lemma LeasesCountKept(w: Work, step: WorkStep)
    requires Numbered(w) && LeasesCount(w) && OwnersLeased(w) && WorkEnabled(w, step)
    ensures LeasesCount(WorkDo(w, step))
  {
    var w' := WorkDo(w, step);
    forall rid | rid in w'.leases ensures w'.leases[rid] == |Owners(w', rid)| {
      OwnersChange(w, step, rid);
      MoverOwns(w, step, rid);
      CountMoves(w, step, rid, Owners(w, rid));
    }
  }

  lemma OwnersLeasedKept(w: Work, step: WorkStep)
    requires Numbered(w) && OwnersLeased(w) && WorkEnabled(w, step)
    ensures OwnersLeased(WorkDo(w, step))
  {
  }

  /** A reference is only added to, and only taken from, a lease that has one: a slot given back stays given back. */
  lemma OnlyLiveLeases(w: Work, step: WorkStep)
    requires Numbered(w) && LeasesCount(w) && OwnersLeased(w) && WorkEnabled(w, step)
    ensures Spawns(step) && SpawnFor(w, step).holds ==> w.leases[SpawnFor(w, step).rid] > 0
    ensures step.HandlerUnlease? ==> w.leases[w.handlers[step.hid].rid] > 0
    ensures step.FrameUnlease? ==> w.leases[step.rid] > 0
  {
    match step
    case Spawn(rid) =>
      MoverOwns(w, step, rid);
      if w.frames[rid].Leased? { HasOwner(w, rid, FrameOwner); }
    case SpawnWithin(hid) =>
      MoverOwns(w, step, w.handlers[hid].rid);
      if w.handlers[hid].holds { HasOwner(w, w.handlers[hid].rid, HandlerOwner(hid)); }
    case HandlerUnlease(hid) =>
      MoverOwns(w, step, w.handlers[hid].rid);
      HasOwner(w, w.handlers[hid].rid, HandlerOwner(hid));
    case FrameUnlease(rid) =>
      MoverOwns(w, step, rid);
      HasOwner(w, rid, FrameOwner);
    case _ =>
  }

  lemma HasOwner(w: Work, rid: nat, owner: Owner)
    requires LeasesCount(w) && rid in w.leases && owner in Owners(w, rid)
    ensures w.leases[rid] > 0
  {
  }

  lemma SlotsCountKept(w: Work, step: WorkStep)
    requires SlotsCount(w) && WorkEnabled(w, step)
    requires Spawns(step) && SpawnFor(w, step).holds ==> w.leases[SpawnFor(w, step).rid] > 0
    requires step.HandlerUnlease? ==> w.leases[w.handlers[step.hid].rid] > 0
    requires step.FrameUnlease? ==> w.leases[step.rid] > 0
    ensures SlotsCount(WorkDo(w, step))
  {
    match step
    case Acquire(rid) =>
      if w.occupied < w.limit { SlotTaken(w, rid); }
    case Spawn(rid) =>
      if w.frames[rid].Leased? { SlotShared(w, WorkDo(w, step), rid); } else { SlotsStay(w, WorkDo(w, step)); }
    case SpawnWithin(hid) =>
      var h := w.handlers[hid];
      if h.holds { SlotShared(w, WorkDo(w, step), h.rid); } else { SlotsStay(w, WorkDo(w, step)); }
    case HandlerUnlease(hid) =>
      SlotGivenUp(w, w.(handlers := w.handlers[hid := w.handlers[hid].(holds := false)]), w.handlers[hid].rid);
    case FrameUnlease(rid) =>
      SlotGivenUp(w, w.(frames := w.frames[rid := Unleased]), rid);
    case _ =>
      SlotsStay(w, WorkDo(w, step));
  }

  lemma SlotsStay(w: Work, v: Work)
    requires SlotsCount(w)
    requires v.leases == w.leases && v.occupied == w.occupied && v.released == w.released && v.limit == w.limit
    ensures SlotsCount(v)
  {
    assert Holders(v) == Holders(w);
  }

  lemma SlotTaken(w: Work, rid: nat)
    requires SlotsCount(w) && rid !in w.leases && w.occupied < w.limit
    ensures SlotsCount(w.(occupied := w.occupied + 1, leases := w.leases[rid := 1], frames := w.frames[rid := Leased]))
  {
    var v := w.(occupied := w.occupied + 1, leases := w.leases[rid := 1], frames := w.frames[rid := Leased]);
    assert Holders(v) == Holders(w) + {rid};
  }

  lemma SlotShared(w: Work, v: Work, rid: nat)
    requires SlotsCount(w) && rid in w.leases && w.leases[rid] > 0
    requires v.leases == w.leases || v.leases == w.leases[rid := w.leases[rid] + 1]
    requires v.occupied == w.occupied && v.released == w.released && v.limit == w.limit
    ensures SlotsCount(v)
  {
    assert Holders(v) == Holders(w);
  }

  lemma SlotGivenUp(w: Work, v: Work, rid: nat)
    requires SlotsCount(w) && rid in w.leases && w.leases[rid] > 0
    requires v.leases == w.leases && v.occupied == w.occupied && v.released == w.released && v.limit == w.limit
    ensures SlotsCount(LeaseDone(v, rid))
  {
    var w' := LeaseDone(v, rid);
    assert w.leases[rid] == 1 ==> Holders(w') == Holders(w) - {rid};
    assert w.leases[rid] > 1 ==> Holders(w') == Holders(w);
    assert rid in Holders(w) && rid !in w.released;
  }

  ghost predicate WorkInv(w: Work) {
    Counted(w) && LeaseInv(w)
  }

  lemma WorkInvKept(w: Work, step: WorkStep)
    requires WorkInv(w) && WorkEnabled(w, step)
    ensures WorkInv(WorkDo(w, step))
  {
    NumberedKept(w, step);
    CountedKept(w, step);
    LeasesCountKept(w, step);
    OwnersLeasedKept(w, step);
    OnlyLiveLeases(w, step);
    SlotsCountKept(w, step);
  }

  // ---------------------------------------------------------------- cron and shutdown

  /** The cron loops started so far are numbered; `live` ones have not ended. */
  datatype Cron = Cron(cancelled: bool, started: nat, live: set<nat>)

  /** A shutdown's own goroutine; `Ran(n)` is a cron stop that returned when `n` loops had been started. */
  datatype CronStop = NotCalled | Cancelled | Ran(loops: nat)

  datatype Phase = Draining | WaitingForCron | WaitingForWork | Closing | Closed

  datatype Answer = Waiting | Finished | ContextEnded

  datatype Shutdown = Shutdown(phase: Phase, cronStop: CronStop, answer: Answer)

  datatype State = State(work: Work, cron: Cron, shutdowns: seq<Shutdown>)

  datatype Step =
    | WorkMoves(step: WorkStep)
    | AddLoop
    | LoopEnds(loop: nat)
    | CallShutdown
    | CancelCron(k: nat)
    | CronStops(k: nat)
    | HttpDown(k: nat)
    | CronDone(k: nat)
    | WorkDone(k: nat)
    | DependenciesClosed(k: nat)
    | Return(k: nat, contextEnded: bool)

  predicate At(s: State, k: nat, phase: Phase) {
    k < |s.shutdowns| && s.shutdowns[k].phase == phase
  }

  /** A channel receive or a wait is a step that is enabled when it would return. */
  predicate Enabled(s: State, step: Step) {
    match step
    case WorkMoves(w) => WorkEnabled(s.work, w)
    case AddLoop => true
    case LoopEnds(loop) => loop in s.cron.live && s.cron.cancelled
    case CallShutdown => true
    case CancelCron(k) => k < |s.shutdowns| && s.shutdowns[k].cronStop.NotCalled?
    case CronStops(k) => k < |s.shutdowns| && s.shutdowns[k].cronStop.Cancelled? && s.cron.live == {}
    case HttpDown(k) => At(s, k, Draining)
    case CronDone(k) => At(s, k, WaitingForCron) && s.shutdowns[k].cronStop.Ran?
    case WorkDone(k) => At(s, k, WaitingForWork) && s.work.wg == 0
    case DependenciesClosed(k) => At(s, k, Closing)
    case Return(k, contextEnded) => k < |s.shutdowns| && s.shutdowns[k].answer.Waiting? && (contextEnded || At(s, k, Closed))
  }

  function Update(s: State, k: nat, sh: Shutdown): State
    requires k < |s.shutdowns|
  {
    s.(shutdowns := s.shutdowns[k := sh])
  }

  function Do(s: State, step: Step): State
    requires Enabled(s, step)
  {
    match step
    case WorkMoves(w) => s.(work := WorkDo(s.work, w))
    case AddLoop => s.(cron := s.cron.(started := s.cron.started + 1, live := s.cron.live + {s.cron.started}))
    case LoopEnds(loop) => s.(cron := s.cron.(live := s.cron.live - {loop}))
    case CallShutdown => s.(work := s.work.(stopping := true), shutdowns := s.shutdowns + [Shutdown(Draining, NotCalled, Waiting)])
    case CancelCron(k) => Update(s, k, s.shutdowns[k].(cronStop := Cancelled)).(cron := s.cron.(cancelled := true))
    case CronStops(k) => Update(s, k, s.shutdowns[k].(cronStop := Ran(s.cron.started)))
    case HttpDown(k) => Update(s, k, s.shutdowns[k].(phase := WaitingForCron))
    case CronDone(k) => Update(s, k, s.shutdowns[k].(phase := WaitingForWork))
    case WorkDone(k) => Update(s, k, s.shutdowns[k].(phase := Closing))
    case DependenciesClosed(k) => Update(s, k, s.shutdowns[k].(phase := Closed))
    case Return(k, contextEnded) => Update(s, k, s.shutdowns[k].(answer := if contextEnded then ContextEnded else Finished))
  }

  predicate Init(s: State) {
    WorkInit(s.work) && s.cron == Cron(false, 0, {}) && s.shutdowns == []
  }

  ghost predicate NextAt(states: seq<State>, steps: seq<Step>, i: nat)
    requires |states| == |steps| + 1 && i < |steps|
  {
    Enabled(states[i], steps[i]) && states[i + 1] == Do(states[i], steps[i])
  }

  /** A run of the server, in any interleaving of requests, handlers, tasks, cron loops and shutdowns. */
  ghost predicate Execution(states: seq<State>, steps: seq<Step>) {
    && |states| == |steps| + 1
    && Init(states[0])
    && (forall i {:trigger NextAt(states, steps, i)} :: 0 <= i < |steps| ==> NextAt(states, steps, i))
  }

  predicate CronOk(s: State, c: CronStop) {
    && (c.NotCalled? || s.cron.cancelled)
    && (c.Ran? ==> c.loops <= s.cron.started && forall loop :: loop in s.cron.live ==> c.loops <= loop)
  }

  predicate ShutdownOk(s: State, sh: Shutdown) {
    && s.work.stopping
    && CronOk(s, sh.cronStop)
    && (sh.phase.WaitingForWork? || sh.phase.Closing? || sh.phase.Closed? ==> sh.cronStop.Ran?)
    && (sh.phase.Closing? || sh.phase.Closed? ==> s.work.wg == 0)
    && (sh.answer.Finished? ==> sh.phase.Closed?)
  }

  ghost predicate Inv(s: State) {
    && WorkInv(s.work)
    && (forall loop :: loop in s.cron.live ==> loop < s.cron.started)
    && (forall k :: 0 <= k < |s.shutdowns| ==> ShutdownOk(s, s.shutdowns[k]))
  }

  /** Once the server is stopping, the counter only falls. */
  lemma OnlyFalls(w: Work, step: WorkStep)
    requires WorkInv(w) && w.stopping && WorkEnabled(w, step)
    ensures WorkDo(w, step).stopping && WorkDo(w, step).wg <= w.wg
  {
  }

  lemma ShutdownKept(s: State, step: Step, sh: Shutdown)
    requires Enabled(s, step) && ShutdownOk(s, sh)
    requires forall loop :: loop in s.cron.live ==> loop < s.cron.started
    requires 0 <= Do(s, step).work.wg && (step.WorkMoves? ==> Do(s, step).work.stopping && Do(s, step).work.wg <= s.work.wg)
    ensures ShutdownOk(Do(s, step), sh)
  {
  }

  lemma ShutdownMoves(s: State, step: Step, k: nat)
    requires Enabled(s, step) && k < |s.shutdowns| && ShutdownOk(s, s.shutdowns[k])
    requires forall loop :: loop in s.cron.live ==> loop < s.cron.started
    requires !step.WorkMoves?
    ensures ShutdownOk(Do(s, step), Do(s, step).shutdowns[k])
  {
  }

  lemma ShutdownsKept(s: State, step: Step)
    requires Inv(s) && Enabled(s, step) && WorkInv(Do(s, step).work)
    ensures forall k :: 0 <= k < |Do(s, step).shutdowns| ==> ShutdownOk(Do(s, step), Do(s, step).shutdowns[k])
  {
    var s' := Do(s, step);
    if step.WorkMoves? && s.work.stopping { OnlyFalls(s.work, step.step); }
    forall k | 0 <= k < |s'.shutdowns| ensures ShutdownOk(s', s'.shutdowns[k]) {
      if k == |s.shutdowns| {
        assert s'.shutdowns[k] == Shutdown(Draining, NotCalled, Waiting);
      } else if step.WorkMoves? {
        ShutdownKept(s, step, s.shutdowns[k]);
      } else {
        ShutdownMoves(s, step, k);
      }
    }
  }

  lemma InvKept(s: State, step: Step)
    requires Inv(s) && Enabled(s, step)
    ensures Inv(Do(s, step))
  {
    if step.WorkMoves? { WorkInvKept(s.work, step.step); }
    if step.CallShutdown? { StoppingKeeps(s.work); }
    ShutdownsKept(s, step);
  }

  lemma StoppingKeeps(w: Work)
    requires WorkInv(w)
    ensures WorkInv(w.(stopping := true))
  {
    var w' := w.(stopping := true);
    assert forall rid :: Owners(w', rid) == Owners(w, rid);
    assert Holders(w') == Holders(w);
  }

  lemma WorkInitInv(w: Work)
    requires WorkInit(w)
    ensures WorkInv(w)
  {
    assert Holders(w) == {};
  }

  lemma {:induction false} AlwaysInv(states: seq<State>, steps: seq<Step>, i: nat)
    requires Execution(states, steps) && i < |states|
    ensures Inv(states[i])
    decreases i
  {
    if i == 0 {
      WorkInitInv(states[0].work);
    } else {
      AlwaysInv(states, steps, i - 1);
      assert NextAt(states, steps, i - 1);
      InvKept(states[i - 1], steps[i - 1]);
    }
  }

  // ---------------------------------------------------------------- what the protocols give

  /** Nothing admitted is left: no request, no handler however late, no task. */
  predicate Drained(w: Work) {
    w.stopping && w.frames == map[] && w.handlers == map[] && w.tasks == {}
  }

  lemma ZeroIsDrained(w: Work)
    requires WorkInv(w) && w.wg <= 0 && w.stopping
    ensures Drained(w) && w.wg == 0
  {
    assert w.frames.Keys == {} && w.handlers.Keys == {};
  }

  lemma DrainedStays(s: State, step: Step)
    requires Drained(s.work) && Enabled(s, step)
    ensures Drained(Do(s, step).work)
  {
  }

  lemma {:induction false} DrainedFrom(states: seq<State>, steps: seq<Step>, n: nat, m: nat)
    requires Execution(states, steps) && n <= m < |states| && Drained(states[n].work)
    ensures Drained(states[m].work)
    decreases m
  {
    if n < m {
      DrainedFrom(states, steps, n, m - 1);
      assert NextAt(states, steps, m - 1);
      DrainedStays(states[m - 1], steps[m - 1]);
    }
  }

  /** In every interleaving dependencies start to close only when the work admitted by `beginWork` has finished and the
      cron manager has stopped every loop started before its stop returned; from then on nothing is admitted. */
  lemma DrainBeforeClose(states: seq<State>, steps: seq<Step>, n: nat, k: nat, m: nat)
    requires Execution(states, steps) && n < |steps| && steps[n] == WorkDone(k) && n <= m < |states|
    ensures Drained(states[m].work)
    ensures k < |states[n].shutdowns| && states[n].shutdowns[k].cronStop.Ran? && states[n].cron.cancelled
    ensures forall loop :: loop in states[n].cron.live ==> states[n].shutdowns[k].cronStop.loops <= loop
  {
    assert NextAt(states, steps, n);
    AlwaysInv(states, steps, n);
    assert ShutdownOk(states[n], states[n].shutdowns[k]);
    ZeroIsDrained(states[n].work);
    DrainedFrom(states, steps, n, m);
  }

  /** Shutdown reports success only when the dependencies have been closed. */
  lemma FinishedMeansClosed(states: seq<State>, steps: seq<Step>, n: nat, k: nat)
    requires Execution(states, steps) && n < |states| && k < |states[n].shutdowns| && states[n].shutdowns[k].answer.Finished?
    ensures states[n].shutdowns[k].phase.Closed? && Drained(states[n].work)
  {
    AlwaysInv(states, steps, n);
    assert ShutdownOk(states[n], states[n].shutdowns[k]);
    ZeroIsDrained(states[n].work);
  }

  lemma SlotOwners(w: Work)
    requires LeasesCount(w)
    ensures Holders(w) == set rid | rid in w.leases && Owners(w, rid) != {}
  {
    forall rid | rid in w.leases ensures w.leases[rid] > 0 <==> Owners(w, rid) != {} {
    }
  }

  /** The occupied slots are always the requests with a live frame or handler that came through load shedding, never more
      than the limit; each slot is given back exactly once, when the last of them is done. */
  lemma LeaseConservation(states: seq<State>, steps: seq<Step>, n: nat)
    requires Execution(states, steps) && n < |states|
    ensures var w := states[n].work;
            && w.occupied == |set rid | rid in w.leases && Owners(w, rid) != {}| <= w.limit
            && (forall rid :: rid in w.released <==> rid in w.leases && Owners(w, rid) == {})
            && (forall i, j :: 0 <= i < j < |w.released| ==> w.released[i] != w.released[j])
  {
    AlwaysInv(states, steps, n);
    var w := states[n].work;
    SlotOwners(w);
  }

  lemma {:induction false} StoppingIff(states: seq<State>, steps: seq<Step>, n: nat)
    requires Execution(states, steps) && n < |states|
    ensures states[n].work.stopping <==> exists i :: 0 <= i < n && steps[i] == CallShutdown
    decreases n
  {
    if n > 0 {
      StoppingIff(states, steps, n - 1);
      assert NextAt(states, steps, n - 1);
    }
  }

  /** Over every run: a request, a handler or a task is admitted if and only if no shutdown has been called, and a request
      gets a slot if and only if fewer requests than the limit hold one. */
  lemma AdmittedIff(states: seq<State>, steps: seq<Step>, n: nat, step: WorkStep)
    requires Execution(states, steps) && n < |steps| && steps[n] == WorkMoves(step)
    ensures step.Enter? || Spawns(step) || step.StartTask? ==>
              (states[n + 1].work.wg == states[n].work.wg + 1 <==> forall i :: 0 <= i < n ==> steps[i] != CallShutdown)
    ensures step.Acquire? ==>
              (step.rid in states[n + 1].work.leases <==>
               |set rid | rid in states[n].work.leases && Owners(states[n].work, rid) != {}| < states[n].work.limit)
  {
    assert NextAt(states, steps, n);
    StoppingIff(states, steps, n);
    AlwaysInv(states, steps, n);
    SlotOwners(states[n].work);
    CounterChange(states[n].work, step);
  }

  // ---------------------------------------------------------------- a cron job added late

  lemma OneMore(states: seq<State>, steps: seq<Step>, step: Step, s: State, s': State) returns (states': seq<State>, steps': seq<Step>)
    requires Execution(states, steps) && states[|steps|] == s && Enabled(s, step) && Do(s, step) == s'
    ensures Execution(states', steps') && states' == states + [s'] && steps' == steps + [step]
    ensures |steps'| == |steps| + 1 && states'[|steps'|] == s'
  {
    states', steps' := states + [s'], steps + [step];
    forall i | 0 <= i < |steps'| ensures NextAt(states', steps', i) {
      if i < |steps| { assert NextAt(states, steps, i); }
    }
  }

  /** A job added after the cron manager has stopped gets a loop all the same: it can be live when dependencies close. */
  lemma LateJobIsLive(limit: nat)
    ensures exists states: seq<State>, steps: seq<Step>, n: nat ::
              Execution(states, steps) && n < |steps| && steps[n] == WorkDone(0) && states[n].cron.live != {}
  {
    var w := Work(limit, false, 0, map[], map[], {}, map[], 0, [], 0);
    var v := w.(stopping := true);
    var cron := Cron(true, 0, {});
    var late := Cron(true, 1, {0});
    var s0 := State(w, Cron(false, 0, {}), []);
    var s1 := State(v, Cron(false, 0, {}), [Shutdown(Draining, NotCalled, Waiting)]);
    var s2 := State(v, cron, [Shutdown(Draining, Cancelled, Waiting)]);
    var s3 := State(v, cron, [Shutdown(Draining, Ran(0), Waiting)]);
    var s4 := State(v, late, [Shutdown(Draining, Ran(0), Waiting)]);
    var s5 := State(v, late, [Shutdown(WaitingForCron, Ran(0), Waiting)]);
    var s6 := State(v, late, [Shutdown(WaitingForWork, Ran(0), Waiting)]);
    var states, steps := OneMore([s0], [], CallShutdown, s0, s1);
    states, steps := OneMore(states, steps, CancelCron(0), s1, s2);
    states, steps := OneMore(states, steps, CronStops(0), s2, s3);
    states, steps := OneMore(states, steps, AddLoop, s3, s4);
    states, steps := OneMore(states, steps, HttpDown(0), s4, s5);
    states, steps := OneMore(states, steps, CronDone(0), s5, s6);
    states, steps := OneMore(states, steps, WorkDone(0), s6, Do(s6, WorkDone(0)));
    assert states[6] == s6 && steps[6] == WorkDone(0) && 0 in s6.cron.live;
  }

  /** A stop that has returned is a step of the run, at which no loop was live. */
  lemma {:induction false} WhenStopped(states: seq<State>, steps: seq<Step>, k: nat, n: nat) returns (c: nat)
    requires Execution(states, steps) && n < |states| && k < |states[n].shutdowns| && states[n].shutdowns[k].cronStop.Ran?
    ensures c < n && steps[c] == CronStops(k) && states[c].cron.live == {} && states[c + 1].cron.live == {}
    decreases n
  {
    c := 0;
    if n > 0 {
      assert NextAt(states, steps, n - 1);
      if steps[n - 1] == CronStops(k) {
        c := n - 1;
      } else {
        c := WhenStopped(states, steps, k, n - 1);
      }
    }
  }

  /** The loop was added by a step from `c` on and has not ended by state `n`. */
  ghost predicate AddedLive(states: seq<State>, steps: seq<Step>, c: nat, n: nat, loop: nat)
    requires |states| == |steps| + 1 && n <= |steps|
  {
    exists i :: c <= i < n && AddedAt(states, steps, i, loop) && NotEnded(steps, i, n, loop)
  }

  ghost predicate AddedAt(states: seq<State>, steps: seq<Step>, i: nat, loop: nat)
    requires |states| == |steps| + 1 && i < |steps|
  {
    steps[i] == AddLoop && states[i].cron.started == loop
  }

  ghost predicate NotEnded(steps: seq<Step>, i: nat, n: nat, loop: nat)
    requires n <= |steps|
  {
    forall j :: i < j < n ==> steps[j] != LoopEnds(loop)
  }

  /** After a state without loops the live ones are those added since that have not ended. */
  lemma {:induction false} LiveLoops(states: seq<State>, steps: seq<Step>, c: nat, n: nat, loop: nat)
    requires Execution(states, steps) && c <= n < |states| && states[c].cron.live == {}
    ensures loop in states[n].cron.live <==> AddedLive(states, steps, c, n, loop)
    decreases n
  {
    if c < n {
      LiveLoops(states, steps, c, n - 1, loop);
      AlwaysInv(states, steps, n - 1);
      LiveLoopsStep(states, steps, c, n - 1, loop);
    }
  }

  lemma LiveLoopsStep(states: seq<State>, steps: seq<Step>, c: nat, n: nat, loop: nat)
    requires Execution(states, steps) && c <= n < |steps|
    requires loop in states[n].cron.live <==> AddedLive(states, steps, c, n, loop)
    requires states[n].cron.started !in states[n].cron.live
    ensures loop in states[n + 1].cron.live <==> AddedLive(states, steps, c, n + 1, loop)
  {
    assert NextAt(states, steps, n);
    if loop in states[n + 1].cron.live {
      if AddedAt(states, steps, n, loop) {
        assert NotEnded(steps, n, n + 1, loop);
      } else {
        var i :| c <= i < n && AddedAt(states, steps, i, loop) && NotEnded(steps, i, n, loop);
        assert NotEnded(steps, i, n + 1, loop);
      }
    }
    if i :| c <= i < n + 1 && AddedAt(states, steps, i, loop) && NotEnded(steps, i, n + 1, loop) {
      if i < n {
        assert NotEnded(steps, i, n, loop);
        assert AddedLive(states, steps, c, n, loop);
      }
    }
  }

  /** When dependencies start to close, the shutdown's cron stop has returned, and the loops live are exactly those
      added since that have not ended. No loop was live at any moment in between if and only if no job was added. */
  lemma NoLateJobs(states: seq<State>, steps: seq<Step>, k: nat, n: nat) returns (c: nat)
    requires Execution(states, steps) && n < |steps| && steps[n] == WorkDone(k)
    ensures c < n && steps[c] == CronStops(k)
    ensures forall loop :: loop in states[n].cron.live <==> AddedLive(states, steps, c, n, loop)
    ensures (forall m :: c < m <= n ==> states[m].cron.live == {}) <==> (forall i :: c <= i < n ==> steps[i] != AddLoop)
  {
    assert NextAt(states, steps, n);
    AlwaysInv(states, steps, n);
    assert ShutdownOk(states[n], states[n].shutdowns[k]);
    c := WhenStopped(states, steps, k, n);
    forall loop ensures loop in states[n].cron.live <==> AddedLive(states, steps, c, n, loop) {
      LiveLoops(states, steps, c, n, loop);
    }
    QuietIff(states, steps, c, n);
  }

  lemma {:induction false} QuietIff(states: seq<State>, steps: seq<Step>, c: nat, n: nat)
    requires Execution(states, steps) && c <= n < |states| && states[c].cron.live == {}
    ensures (forall m :: c < m <= n ==> states[m].cron.live == {}) <==> (forall i :: c <= i < n ==> steps[i] != AddLoop)
    decreases n
  {
    if c < n {
      QuietIff(states, steps, c, n - 1);
      assert NextAt(states, steps, n - 1);
      assert steps[n - 1] == AddLoop ==> states[n - 1].cron.started in states[n].cron.live;
    }
  }
}
