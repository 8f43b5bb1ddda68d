/** The page plans that belong to root tokens, and their agreement with the runtime state store. */
module PagePlans {
  import opened Collections
  import opened Options
  import opened RuntimeStates

  type Plan = string

  datatype Plans = Plans(plans: map<string, Plan>, expiry: map<string, int>, order: seq<string>)

  const NO_PLANS: Plans := Plans(map[], map[], [])

  // ---------------------------------------------------------------- specification of the operations

  function WithoutFront(p: Plans): Plans
    requires p.order != []
  {
    Plans(p.plans - {p.order[0]}, p.expiry - {p.order[0]}, p.order[1..])
  }

  predicate Keep(p: Plans, now: int)
    requires p.order != []
  {
    p.order[0] in p.expiry && now < p.expiry[p.order[0]] && |p.plans| < LIMIT
  }

  function PlansPruned(p: Plans, now: int): Plans
    decreases |p.order|
  {
    if p.order == [] || Keep(p, now) then p else PlansPruned(WithoutFront(p), now)
  }

  function Remembered(p: Plans, token: string, plan: Plan, now: int): Plans {
    var p1 := PlansPruned(p, now);
    Plans(p1.plans[token := plan], p1.expiry[token := now + TTL],
          if token in p1.plans then p1.order else p1.order + [token])
  }

  function Found(p: Plans, token: string, now: int): Option<Plan> {
    if token in p.expiry && p.expiry[token] <= now then None
    else if token in p.plans then Some(p.plans[token])
    else None
  }

  function AfterLookup(p: Plans, token: string, now: int): Plans {
    if token in p.expiry && p.expiry[token] <= now
    then p.(plans := p.plans - {token}, expiry := p.expiry - {token}) else p
  }

  // ---------------------------------------------------------------- the fields of App

  class PlanTable {
    var pagePlans: map<string, Plan>
    var pagePlanExpiry: map<string, int>
    var pagePlanOrder: seq<string>

    ghost function View(): Plans
      reads this
    {
      Plans(pagePlans, pagePlanExpiry, pagePlanOrder)
    }

    constructor ()
      ensures View() == NO_PLANS
    {
      pagePlans, pagePlanExpiry, pagePlanOrder := map[], map[], [];
    }

    method PrunePagePlans(now: int)
      modifies this
      ensures View() == PlansPruned(old(View()), now)
    {
      while |pagePlanOrder| > 0
        invariant PlansPruned(View(), now) == PlansPruned(old(View()), now)
        decreases |pagePlanOrder|
      {
        var token := pagePlanOrder[0];
        if token in pagePlanExpiry && now < pagePlanExpiry[token] && |pagePlans| < LIMIT {
          break;
        }
        pagePlans := pagePlans - {token};
        pagePlanExpiry := pagePlanExpiry - {token};
        pagePlanOrder := pagePlanOrder[1..];
      }
    }

    method RememberPagePlan(token: string, plan: Plan, now: int)
      modifies this
      ensures View() == Remembered(old(View()), token, plan, now)
    {
      PrunePagePlans(now);
      if token !in pagePlans {
        pagePlanOrder := pagePlanOrder + [token];
      }
      pagePlans := pagePlans[token := plan];
      pagePlanExpiry := pagePlanExpiry[token := now + TTL];
    }

    method LookupPagePlan(token: string, now: int) returns (plan: Option<Plan>)
      modifies this
      ensures plan == Found(old(View()), token, now)
      ensures View() == AfterLookup(old(View()), token, now)
    {
      plan := if token in pagePlans then Some(pagePlans[token]) else None;
      if token in pagePlanExpiry && !(now < pagePlanExpiry[token]) {
        pagePlans := pagePlans - {token};
        pagePlanExpiry := pagePlanExpiry - {token};
        return None;
      }
    }
  }

  // ---------------------------------------------------------------- runs of both stores

  /** Every put of a root token is followed by remembering its plan, under another lock: puts and plans of other
      requests can come between the two. `root` is the position of the put in the log of the state store. */
  datatype Event =
    | Remember(token: string, root: nat, plan: Plan, now: int)
    | State(op: Operation)
    | LookupPlan(token: string, now: int)

  datatype PlanRecord = PlanRecord(token: string, plan: Plan, time: int, root: nat)

  datatype Both = Both(state: History, plans: Plans, planLog: seq<PlanRecord>)

  function Do(b: Both, e: Event): Both {
    match e
    case Remember(token, root, plan, now) =>
      Both(b.state.(clock := now), Remembered(b.plans, token, plan, now), b.planLog + [PlanRecord(token, plan, now, root)])
    case State(op) => b.(state := Step(b.state, op))
    case LookupPlan(token, now) => b.(plans := AfterLookup(b.plans, token, now), state := b.state.(clock := now))
  }

  /** A put is remembered at most once. */
  ghost predicate Pending(b: Both, token: string, root: nat) {
    && root < |b.state.log| && b.state.log[root].token == token
    && forall j :: 0 <= j < |b.planLog| ==> b.planLog[j].root != root
  }

  ghost predicate Allowed(b: Both, e: Event) {
    match e
    case Remember(token, root, plan, now) => b.state.clock <= now && Pending(b, token, root)
    case State(op) => Legal(b.state, op)
    case LookupPlan(_, now) => b.state.clock <= now
  }

  function DoAll(start: int, events: seq<Event>): Both {
    if events == [] then Both(History([], EMPTY, start), NO_PLANS, [])
    else Do(DoAll(start, events[..|events| - 1]), events[|events| - 1])
  }

  /** Every event is allowed where it happens. */
  ghost predicate AllowedRun(start: int, events: seq<Event>) {
    events == []
    || (AllowedRun(start, events[..|events| - 1]) && Allowed(DoAll(start, events[..|events| - 1]), events[|events| - 1]))
  }

  // ---------------------------------------------------------------- the invariant of the plan table

  ghost predicate PlanLogDistinct(log: seq<PlanRecord>) {
    forall i, j :: 0 <= i < j < |log| ==> log[i].token != log[j].token
  }

  ghost predicate PlanLogSorted(log: seq<PlanRecord>, clock: int) {
    && (forall i, j :: 0 <= i < j < |log| ==> log[i].time <= log[j].time)
    && (forall i :: 0 <= i < |log| ==> log[i].time <= clock)
  }

  ghost predicate PlanSuffix(log: seq<PlanRecord>, order: seq<string>, d: int) {
    && 0 <= d && d + |order| == |log|
    && forall j :: d <= j < |log| ==> order[j - d] == log[j].token
  }

  ghost predicate PlanLoggedFrom(log: seq<PlanRecord>, d: int, t: string) {
    exists j :: 0 <= d <= j < |log| && log[j].token == t
  }

  ghost predicate PlanOver(r: PlanRecord, clock: int) {
    r.time + TTL <= clock
  }

  ghost predicate PlanStored(r: PlanRecord, p: Plans, clock: int) {
    if r.token in p.plans
    then p.plans[r.token] == r.plan && r.token in p.expiry && p.expiry[r.token] == r.time + TTL
    else PlanOver(r, clock)
  }

  ghost predicate PlansHold(log: seq<PlanRecord>, p: Plans, clock: int) {
    var d := |log| - |p.order|;
    && p.plans.Keys == p.expiry.Keys
    && PlanSuffix(log, p.order, d)
    && (forall t {:trigger PlanLoggedFrom(log, d, t)} :: t in p.plans ==> PlanLoggedFrom(log, d, t))
    && (forall j :: d <= j < |log| ==> PlanStored(log[j], p, clock))
  }

  ghost predicate PlansLeft(log: seq<PlanRecord>, order: seq<string>, clock: int, extra: nat) {
    forall i :: 0 <= i < |log| - |order| ==> PlanOver(log[i], clock) || |log| - 1 - i + extra >= LIMIT
  }

  /** The plan table against its own log. */
  ghost predicate TableSound(log: seq<PlanRecord>, p: Plans, clock: int, extra: nat) {
    PlanLogDistinct(log) && PlansHold(log, p, clock) && PlansLeft(log, p.order, clock, extra)
  }

  /** Every plan belongs to a put of the same token, made no later, and no two to the same put. */
  ghost predicate Rooted(planLog: seq<PlanRecord>, log: seq<Record>) {
    && (forall j :: 0 <= j < |planLog| ==>
          && planLog[j].root < |log|
          && log[planLog[j].root].token == planLog[j].token
          && log[planLog[j].root].time <= planLog[j].time)
    && (forall i, j :: 0 <= i < j < |planLog| ==> planLog[i].root != planLog[j].root)
  }

  ghost predicate BothSound(b: Both) {
    && Inv(b.state)
    && PlanLogSorted(b.planLog, b.state.clock)
    && TableSound(b.planLog, b.plans, b.state.clock, 0)
    && |b.plans.plans| <= LIMIT
    && Rooted(b.planLog, b.state.log)
  }

  lemma PlanTokens(log: seq<PlanRecord>, lo: nat) returns (s: set<string>)
    requires lo <= |log| && PlanLogDistinct(log)
    ensures s == set i | lo <= i < |log| :: log[i].token
    ensures |s| == |log| - lo
    decreases |log| - lo
  {
    if lo == |log| {
      s := {};
    } else {
      var rest := PlanTokens(log, lo + 1);
      s := {log[lo].token} + rest;
    }
  }

  lemma PlanQueueBound(log: seq<PlanRecord>, p: Plans, clock: int)
    requires PlanLogDistinct(log) && PlansHold(log, p, clock)
    ensures |p.plans| <= |p.order|
  {
    var d := |log| - |p.order|;
    var s := PlanTokens(log, d);
    forall t | t in p.plans ensures t in s {
      assert PlanLoggedFrom(log, d, t);
    }
    SubsetSize(p.plans.Keys, s);
  }

  lemma PopPlan(log: seq<PlanRecord>, p: Plans, clock: int)
    requires PlanLogDistinct(log) && PlansHold(log, p, clock) && p.order != []
    ensures PlansHold(log, WithoutFront(p), clock)
    ensures |WithoutFront(p).plans| == |p.plans| - (if p.order[0] in p.plans then 1 else 0)
  {
    var d := |log| - |p.order|;
    var t0 := log[d].token;
    var p' := WithoutFront(p);
    assert p.order[0] == t0;
    assert p'.plans.Keys == p.plans.Keys - {t0};
    forall t | t in p'.plans ensures PlanLoggedFrom(log, d + 1, t) {
      assert PlanLoggedFrom(log, d, t);
    }
    forall j | d + 1 <= j < |log| ensures PlanStored(log[j], p', clock) {
      assert PlanStored(log[j], p, clock);
    }
    PopPlanSuffix(log, p.order, d);
  }

  lemma PopPlanSuffix(log: seq<PlanRecord>, order: seq<string>, d: int)
    requires PlanSuffix(log, order, d) && order != []
    ensures PlanSuffix(log, order[1..], d + 1)
  {
  }

  lemma PopPlanLeft(log: seq<PlanRecord>, p: Plans, clock: int)
    requires PlanLogDistinct(log) && PlansHold(log, p, clock) && PlansLeft(log, p.order, clock, 1)
    requires p.order != [] && !Keep(p, clock)
    ensures PlansLeft(log, p.order[1..], clock, 1)
  {
    var d := |log| - |p.order|;
    assert p.order[0] == log[d].token && PlanStored(log[d], p, clock);
    if |p.plans| >= LIMIT {
      PlanQueueBound(log, p, clock);
    }
  }

  lemma {:induction false} PlansPrunedSound(log: seq<PlanRecord>, p: Plans, clock: int)
    requires PlanLogDistinct(log) && PlansHold(log, p, clock) && PlansLeft(log, p.order, clock, 1)
    ensures PlansHold(log, PlansPruned(p, clock), clock) && PlansLeft(log, PlansPruned(p, clock).order, clock, 1)
    ensures |PlansPruned(p, clock).plans| < LIMIT
    decreases |p.order|
  {
    if p.order == [] {
      PlanQueueBound(log, p, clock);
    } else if !Keep(p, clock) {
      PopPlan(log, p, clock);
      PopPlanLeft(log, p, clock);
      PlansPrunedSound(log, WithoutFront(p), clock);
    }
  }

  lemma AppendPlan(log: seq<PlanRecord>, p: Plans, r: PlanRecord)
    requires forall i :: 0 <= i < |log| ==> log[i].token != r.token
    requires PlansHold(log, p, r.time) && |p.plans| < LIMIT
    ensures r.token !in p.plans
    ensures var p' := Plans(p.plans[r.token := r.plan], p.expiry[r.token := r.time + TTL], p.order + [r.token]);
            PlansHold(log + [r], p', r.time) && |p'.plans| <= LIMIT
  {
    var d := |log| - |p.order|;
    var p' := Plans(p.plans[r.token := r.plan], p.expiry[r.token := r.time + TTL], p.order + [r.token]);
    assert p'.plans.Keys == p.plans.Keys + {r.token};
    AppendSuffix(log, p.order, d, r);
    AppendLogged(log, p.plans, d, r);
    AppendStored(log, p, d, r);
  }

  lemma AppendSuffix(log: seq<PlanRecord>, order: seq<string>, d: int, r: PlanRecord)
    requires PlanSuffix(log, order, d)
    ensures PlanSuffix(log + [r], order + [r.token], d)
  {
  }

  lemma AppendLogged(log: seq<PlanRecord>, plans: map<string, Plan>, d: int, r: PlanRecord)
    requires 0 <= d <= |log| && forall i :: 0 <= i < |log| ==> log[i].token != r.token
    requires forall t {:trigger PlanLoggedFrom(log, d, t)} :: t in plans ==> PlanLoggedFrom(log, d, t)
    ensures r.token !in plans
    ensures forall t {:trigger PlanLoggedFrom(log + [r], d, t)} :: t in plans[r.token := r.plan] ==> PlanLoggedFrom(log + [r], d, t)
  {
    assert r.token in plans ==> PlanLoggedFrom(log, d, r.token);
    forall t | t in plans[r.token := r.plan] ensures PlanLoggedFrom(log + [r], d, t) {
      if t == r.token {
        assert (log + [r])[|log|].token == t;
      } else {
        assert PlanLoggedFrom(log, d, t);
        var j :| d <= j < |log| && log[j].token == t;
        assert (log + [r])[j].token == t;
      }
    }
  }

  lemma AppendStored(log: seq<PlanRecord>, p: Plans, d: int, r: PlanRecord)
    requires 0 <= d <= |log| && forall i :: 0 <= i < |log| ==> log[i].token != r.token
    requires forall j :: d <= j < |log| ==> PlanStored(log[j], p, r.time)
    ensures var p' := Plans(p.plans[r.token := r.plan], p.expiry[r.token := r.time + TTL], p.order + [r.token]);
            forall j :: d <= j < |log| + 1 ==> PlanStored((log + [r])[j], p', r.time)
  {
    var p' := Plans(p.plans[r.token := r.plan], p.expiry[r.token := r.time + TTL], p.order + [r.token]);
    forall j | d <= j < |log| + 1 ensures PlanStored((log + [r])[j], p', r.time) {
      if j < |log| {
        assert PlanStored(log[j], p, r.time);
      }
    }
  }

  lemma PlansLater(log: seq<PlanRecord>, p: Plans, clock: int, now: int)
    requires PlansHold(log, p, clock) && PlansLeft(log, p.order, clock, 0) && clock <= now
    ensures PlansHold(log, p, now) && PlansLeft(log, p.order, now, 0)
  {
    forall j | |log| - |p.order| <= j < |log| ensures PlanStored(log[j], p, now) {
      assert PlanStored(log[j], p, clock);
    }
  }

  lemma LookupSound(log: seq<PlanRecord>, p: Plans, clock: int, token: string)
    requires PlansHold(log, p, clock)
    ensures PlansHold(log, AfterLookup(p, token, clock), clock)
    ensures |AfterLookup(p, token, clock).plans| <= |p.plans|
  {
    var p' := AfterLookup(p, token, clock);
    var d := |log| - |p.order|;
    assert (p.plans - {token}).Keys == p.plans.Keys - {token};
    forall j | d <= j < |log| ensures PlanStored(log[j], p', clock) {
      assert PlanStored(log[j], p, clock);
    }
    SubsetSize(p'.plans.Keys, p.plans.Keys);
  }

  lemma RememberSound(log: seq<PlanRecord>, p: Plans, r: PlanRecord)
    requires TableSound(log, p, r.time, 0)
    requires forall i :: 0 <= i < |log| ==> log[i].token != r.token
    ensures TableSound(log + [r], Remembered(p, r.token, r.plan, r.time), r.time, 0)
    ensures |Remembered(p, r.token, r.plan, r.time).plans| <= LIMIT
  {
    PlansPrunedSound(log, p, r.time);
    var q := PlansPruned(p, r.time);
    RememberPruned(log, q, r);
    assert Remembered(p, r.token, r.plan, r.time) == Plans(q.plans[r.token := r.plan], q.expiry[r.token := r.time + TTL], q.order + [r.token]);
  }

  lemma RememberPruned(log: seq<PlanRecord>, p: Plans, r: PlanRecord)
    requires TableSound(log, p, r.time, 1) && |p.plans| < LIMIT
    requires forall i :: 0 <= i < |log| ==> log[i].token != r.token
    ensures r.token !in p.plans
    ensures var p' := Plans(p.plans[r.token := r.plan], p.expiry[r.token := r.time + TTL], p.order + [r.token]);
            TableSound(log + [r], p', r.time, 0) && |p'.plans| <= LIMIT
  {
    AppendPlan(log, p, r);
    AppendLeft(log, p.order, r);
  }

  lemma AppendLeft(log: seq<PlanRecord>, order: seq<string>, r: PlanRecord)
    requires PlansLeft(log, order, r.time, 1)
    ensures PlansLeft(log + [r], order + [r.token], r.time, 0)
  {
  }

  lemma DoSound(b: Both, e: Event)
    requires BothSound(b) && Allowed(b, e)
    ensures BothSound(Do(b, e))
  {
    match e
    case Remember(token, root, plan, now) => RememberedSound(b, e);
    case State(op) =>
      StepSound(b.state, op);
      PlansLater(b.planLog, b.plans, b.state.clock, op.now);
    case LookupPlan(token, now) =>
      Later(b.state, now);
      PlansLater(b.planLog, b.plans, b.state.clock, now);
      LookupSound(b.planLog, b.plans, now, token);
  }

  lemma RememberedSound(b: Both, e: Event)
    requires BothSound(b) && e.Remember? && Allowed(b, e)
    ensures BothSound(Do(b, e))
  {
    var r := PlanRecord(e.token, e.plan, e.now, e.root);
    Later(b.state, e.now);
    NewlyRooted(b, r);
    PlansLater(b.planLog, b.plans, b.state.clock, e.now);
    RememberSound(b.planLog, b.plans, r);
  }

  lemma NewlyRooted(b: Both, r: PlanRecord)
    requires BothSound(b) && Pending(b, r.token, r.root) && b.state.clock <= r.time
    ensures Rooted(b.planLog + [r], b.state.log)
    ensures forall j :: 0 <= j < |b.planLog| ==> b.planLog[j].token != r.token
  {
  }

  lemma {:induction false} BothRun(start: int, events: seq<Event>)
    requires AllowedRun(start, events)
    ensures BothSound(DoAll(start, events))
  {
    if events != [] {
      var front := events[..|events| - 1];
      BothRun(start, front);
      DoSound(DoAll(start, front), events[|events| - 1]);
    }
  }

  // ---------------------------------------------------------------- main results

  /** Plan lookup, exactly: found if and only if remembered less than 30 minutes ago with fewer than 4096 newer plans. */
  lemma FoundExactly(b: Both, token: string, now: int, plan: Plan)
    requires BothSound(b) && b.state.clock <= now
    ensures Found(b.plans, token, now) == Some(plan) <==>
            exists j :: 0 <= j < |b.planLog| && b.planLog[j].token == token && b.planLog[j].plan == plan
              && now < b.planLog[j].time + TTL && |b.planLog| - 1 - j < LIMIT
  {
    var d := |b.planLog| - |b.plans.order|;
    if Found(b.plans, token, now) == Some(plan) {
      assert PlanLoggedFrom(b.planLog, d, token);
      var j :| d <= j < |b.planLog| && b.planLog[j].token == token;
      assert PlanStored(b.planLog[j], b.plans, b.state.clock);
      FewNewerPlans(b, j, now);
    }
    forall j | 0 <= j < |b.planLog| && b.planLog[j].token == token && now < b.planLog[j].time + TTL
        && |b.planLog| - 1 - j < LIMIT
      ensures Found(b.plans, token, now) == Some(b.planLog[j].plan)
    {
      assert j >= d;
      assert PlanStored(b.planLog[j], b.plans, b.state.clock);
    }
  }

  /** Remembering a plan leaves only live ones in the table. */
  lemma NoDeadPlans(b: Both, token: string, plan: Plan, now: int)
    requires BothSound(b) && b.state.clock <= now
    ensures var p := Remembered(b.plans, token, plan, now);
            forall t :: t in p.plans ==> t in p.expiry && now < p.expiry[t]
  {
    PlansLater(b.planLog, b.plans, b.state.clock, now);
    PlansPrunedSound(b.planLog, b.plans, now);
    FrontKept(b.plans, now);
    AllPlansLive(b.planLog, PlansPruned(b.plans, now), now);
  }

  lemma {:induction false} FrontKept(p: Plans, now: int)
    ensures PlansPruned(p, now).order == [] || Keep(PlansPruned(p, now), now)
    decreases |p.order|
  {
    if p.order != [] && !Keep(p, now) { FrontKept(WithoutFront(p), now); }
  }

  lemma AllPlansLive(log: seq<PlanRecord>, p: Plans, now: int)
    requires PlanLogDistinct(log) && PlanLogSorted(log, now) && PlansHold(log, p, now) && (p.order == [] || Keep(p, now))
    ensures forall t :: t in p.plans ==> t in p.expiry && now < p.expiry[t]
  {
    var d := |log| - |p.order|;
    forall t | t in p.plans ensures t in p.expiry && now < p.expiry[t] {
      assert PlanLoggedFrom(log, d, t);
      var j :| d <= j < |log| && log[j].token == t;
      assert p.order[0] == log[d].token && PlanStored(log[d], p, now) && PlanStored(log[j], p, now);
    }
  }

  lemma FewNewerPlans(b: Both, i: nat, now: int)
    requires BothSound(b) && b.state.clock <= now
    requires |b.planLog| - |b.plans.order| <= i < |b.planLog| && now < b.planLog[i].time + TTL
    ensures |b.planLog| - 1 - i < LIMIT
  {
    var s := PlanTokens(b.planLog, i);
    forall j | i <= j < |b.planLog| ensures b.planLog[j].token in b.plans.plans {
      assert PlanStored(b.planLog[j], b.plans, b.state.clock);
    }
    SubsetSize(s, b.plans.plans.Keys);
  }

  /** No plan remembered after the j-th belongs to an earlier put. */
  ghost predicate NotOvertaken(planLog: seq<PlanRecord>, j: nat) {
    forall i :: j < i < |planLog| ==> planLog[j].root < planLog[i].root
  }

  lemma NewerRoots(planLog: seq<PlanRecord>, log: seq<Record>, lo: nat) returns (s: set<nat>)
    requires Rooted(planLog, log) && lo <= |planLog|
    ensures s == set i | lo <= i < |planLog| :: planLog[i].root
    ensures |s| == |planLog| - lo
    decreases |planLog| - lo
  {
    if lo == |planLog| {
      s := {};
    } else {
      var rest := NewerRoots(planLog, log, lo + 1);
      s := {planLog[lo].root} + rest;
    }
  }

  function Numbers(lo: nat, hi: nat): (s: set<nat>)
    requires lo <= hi
    ensures forall k :: k in s <==> lo <= k < hi
    ensures |s| == hi - lo
    decreases hi - lo
  {
    if lo == hi then {} else {lo} + Numbers(lo + 1, hi)
  }

  lemma RootGap(planLog: seq<PlanRecord>, log: seq<Record>, j: nat)
    requires Rooted(planLog, log) && j < |planLog| && NotOvertaken(planLog, j)
    ensures |planLog| - 1 - j <= |log| - 1 - planLog[j].root
  {
    var s := NewerRoots(planLog, log, j + 1);
    var r := planLog[j].root;
    SubsetSize(s, Numbers(r + 1, |log|));
  }

  /** The two stores agree. After any run, if the state of a root token can still be read at time `now`, its plan can
      be looked up then and at any later time before the state expires if and only if fewer than 4096 plans were
      remembered after it, and that is so whenever none of those belongs to an earlier put. */
  lemma StoresAgree(start: int, events: seq<Event>, owner: string, now: int, at: int, j: nat)
    requires AllowedRun(start, events)
    requires var b := DoAll(start, events);
             && b.state.clock <= now <= at && j < |b.planLog|
             && Read(b.state.store, owner, b.planLog[j].token, now).Some?
             && at < b.state.store.entries[b.planLog[j].token].expires
    ensures var b := DoAll(start, events);
            && (Found(b.plans, b.planLog[j].token, at) == Some(b.planLog[j].plan) <==> |b.planLog| - 1 - j < LIMIT)
            && (NotOvertaken(b.planLog, j) ==> |b.planLog| - 1 - j < LIMIT)
  {
    BothRun(start, events);
    var b := DoAll(start, events);
    var r := b.planLog[j];
    ReadExactly(b.state, owner, r.token, now, Read(b.state.store, owner, r.token, now).value);
    assert Stored(b.state.log[r.root], b.state.store.entries, b.state.clock);
    FoundExactly(b, r.token, at, r.plan);
    if NotOvertaken(b.planLog, j) {
      RootGap(b.planLog, b.state.log, j);
    }
  }

  // ---------------------------------------------------------------- plans that overtake each other

  function Extend(events: seq<Event>, e: Event, f: Event): seq<Event> {
    events + [e] + [f]
  }

  function Longer(events: seq<Event>, tokens: seq<string>, owner: string, props: Props): seq<Event>
    requires tokens != []
  {
    var n := |tokens| - 1;
    Extend(events, State(Put(tokens[n], owner, props, 0)), Remember(tokens[n], n, "", 0))
  }

  /** Two requests put their root tokens in one order and remember their plans in the other; any number of further
      requests, undisturbed, follow. */
  function Crossing(tokens: seq<string>, owner: string, props: Props): seq<Event>
    requires |tokens| >= 2
  {
    if |tokens| == 2 then
      Extend(Extend([], State(Put(tokens[0], owner, props, 0)), State(Put(tokens[1], owner, props, 0))),
             Remember(tokens[1], 1, "", 0), Remember(tokens[0], 0, "", 0))
    else Longer(Crossing(tokens[..|tokens| - 1], owner, props), tokens, owner, props)
  }

  ghost predicate Tokens(tokens: seq<string>) {
    && (forall i :: 0 <= i < |tokens| ==> 0 < |tokens[i]| <= MAX_TOKEN)
    && forall i, j :: 0 <= i < j < |tokens| ==> tokens[i] != tokens[j]
  }

  /** The second token's plan is the first in its log, with every other plan behind it. */
  ghost predicate Crossed(b: Both, tokens: seq<string>, owner: string, props: Props) {
    && b.state.clock == 0
    && |b.state.log| == |tokens| == |b.planLog| >= 2
    && (forall i :: 0 <= i < |tokens| ==> b.state.log[i] == Record(tokens[i], owner, props, 0))
    && (forall j :: 0 <= j < |tokens| ==> b.planLog[j].root < |tokens|)
    && b.planLog[0] == PlanRecord(tokens[1], "", 0, 1)
    && forall j :: 0 < j < |tokens| ==> b.planLog[j].token != tokens[1]
  }

  lemma OneMore(start: int, events: seq<Event>, e: Event)
    requires AllowedRun(start, events) && Allowed(DoAll(start, events), e)
    ensures AllowedRun(start, events + [e])
    ensures DoAll(start, events + [e]) == Do(DoAll(start, events), e)
  {
    assert (events + [e])[..|events|] == events;
  }

  lemma TwoMore(start: int, events: seq<Event>, e: Event, f: Event)
    requires AllowedRun(start, events) && Allowed(DoAll(start, events), e)
    requires Allowed(Do(DoAll(start, events), e), f)
    ensures AllowedRun(start, Extend(events, e, f))
    ensures DoAll(start, Extend(events, e, f)) == Do(Do(DoAll(start, events), e), f)
  {
    OneMore(start, events, e);
    OneMore(start, events + [e], f);
  }

  ghost predicate CrossesTo(events: seq<Event>, tokens: seq<string>, owner: string, props: Props) {
    AllowedRun(0, events) && Crossed(DoAll(0, events), tokens, owner, props)
  }

  lemma {:induction false} CrossingRun(tokens: seq<string>, owner: string, props: Props)
    requires |tokens| >= 2 && Tokens(tokens)
    ensures CrossesTo(Crossing(tokens, owner, props), tokens, owner, props)
  {
    if |tokens| == 2 {
      CrossingStart(tokens, owner, props);
    } else {
      var shorter := tokens[..|tokens| - 1];
      CrossingRun(shorter, owner, props);
      CrossingNext(Crossing(shorter, owner, props), tokens, owner, props);
    }
  }

  lemma CrossingStart(tokens: seq<string>, owner: string, props: Props)
    requires |tokens| == 2 && Tokens(tokens)
    ensures CrossesTo(Crossing(tokens, owner, props), tokens, owner, props)
  {
    var e, f := State(Put(tokens[0], owner, props, 0)), State(Put(tokens[1], owner, props, 0));
    TwoMore(0, [], e, f);
    TwoPuts(DoAll(0, []), tokens, owner, props);
    TwoPlans(DoAll(0, Extend([], e, f)), tokens, owner, props);
    TwoMore(0, Extend([], e, f), Remember(tokens[1], 1, "", 0), Remember(tokens[0], 0, "", 0));
  }

  lemma TwoPuts(b: Both, tokens: seq<string>, owner: string, props: Props)
    requires |tokens| == 2 && Tokens(tokens) && b.state.log == [] && b.planLog == [] && b.state.clock == 0
    ensures var c := Do(Do(b, State(Put(tokens[0], owner, props, 0))), State(Put(tokens[1], owner, props, 0)));
            c.state.log == [Record(tokens[0], owner, props, 0), Record(tokens[1], owner, props, 0)] && c.planLog == [] && c.state.clock == 0
  {
  }

  lemma TwoPlans(b: Both, tokens: seq<string>, owner: string, props: Props)
    requires |tokens| == 2 && Tokens(tokens) && b.planLog == [] && b.state.clock == 0
    requires b.state.log == [Record(tokens[0], owner, props, 0), Record(tokens[1], owner, props, 0)]
    ensures var e, f := Remember(tokens[1], 1, "", 0), Remember(tokens[0], 0, "", 0);
            Allowed(b, e) && Allowed(Do(b, e), f) && Crossed(Do(Do(b, e), f), tokens, owner, props)
  {
  }

  lemma CrossingNext(events: seq<Event>, tokens: seq<string>, owner: string, props: Props)
    requires |tokens| > 2 && Tokens(tokens) && CrossesTo(events, tokens[..|tokens| - 1], owner, props)
    ensures CrossesTo(Longer(events, tokens, owner, props), tokens, owner, props)
  {
    var n := |tokens| - 1;
    CrossedMore(DoAll(0, events), tokens, owner, props);
    TwoMore(0, events, State(Put(tokens[n], owner, props, 0)), Remember(tokens[n], n, "", 0));
  }

  lemma CrossedMore(b: Both, tokens: seq<string>, owner: string, props: Props)
    requires |tokens| > 2 && Tokens(tokens) && Crossed(b, tokens[..|tokens| - 1], owner, props)
    ensures var n := |tokens| - 1;
            var e, f := State(Put(tokens[n], owner, props, 0)), Remember(tokens[n], n, "", 0);
            Allowed(b, e) && Allowed(Do(b, e), f) && Crossed(Do(Do(b, e), f), tokens, owner, props)
  {
  }

  /** After the two requests that crossed and 4095 more, the state of the second token can be read and its plan is
      gone; with fewer both are there, with more neither is. */
  lemma CrossingLosesPlan(tokens: seq<string>, owner: string, props: Props)
    requires |tokens| >= 2 && Tokens(tokens)
    ensures AllowedRun(0, Crossing(tokens, owner, props))
    ensures var b := DoAll(0, Crossing(tokens, owner, props));
            && (Read(b.state.store, owner, tokens[1], 0) == Some(props) <==> |tokens| <= LIMIT + 1)
            && (Found(b.plans, tokens[1], 0) == Some("") <==> |tokens| <= LIMIT)
  {
    var b := DoAll(0, Crossing(tokens, owner, props));
    CrossingRun(tokens, owner, props);
    BothRun(0, Crossing(tokens, owner, props));
    ReadExactly(b.state, owner, tokens[1], 0, props);
    assert b.state.log[1].token == tokens[1];
    FoundExactly(b, tokens[1], 0, "");
    assert b.planLog[0].token == tokens[1];
  }
}
