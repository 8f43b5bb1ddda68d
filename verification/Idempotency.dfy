/** Idempotent requests: one handler run at a time per key, its response replayed to the requests that repeat it. */
module Idempotency {
  import opened Options
  import opened Texts
  import opened Utf8

  const MAX_RESPONSE: nat := 0x10_0000
  const DAY: nat := 24 * 60 * 60 * 1_000_000_000

  // ---------------------------------------------------------------- recording a response

  datatype Call = WriteHeader(code: int) | Write(bytes: Bytes)

  /** What the handler's calls have left in the interceptor. */
  datatype Recording = Recording(status: int, wroteHeader: bool, body: Bytes, tooLarge: bool)

  function AfterHeader(r: Recording, code: int): Recording {
    if code < 200 || r.wroteHeader then r else r.(status := code, wroteHeader := true)
  }

  function AfterCall(r: Recording, call: Call): Recording {
    match call
    case WriteHeader(code) => AfterHeader(r, code)
    case Write(bytes) =>
      var r' := AfterHeader(r, 200);
      if r'.tooLarge then r'
      else if |bytes| > MAX_RESPONSE - |r'.body| then r'.(tooLarge := true)
      else r'.(body := r'.body + bytes)
  }

  function AfterCalls(r: Recording, calls: seq<Call>): Recording
    decreases |calls|
  {
    if calls == [] then r else AfterCalls(AfterCall(r, calls[0]), calls[1..])
  }

  function Recorded(calls: seq<Call>): Recording {
    AfterCalls(Recording(200, false, [], false), calls)
  }

  class ResponseInterceptor {
    var body: Bytes
    var status: int
    var wroteHeader: bool
    var err: bool

    ghost function Value(): Recording
      reads this
    {
      Recording(status, wroteHeader, body, err)
    }

    constructor ()
      ensures Value() == Recorded([])
    {
      body, status, wroteHeader, err := [], 200, false, false;
    }

    method WriteHeader(code: int)
      modifies this
      ensures Value() == AfterCall(old(Value()), Call.WriteHeader(code))
    {
      if code < 200 || wroteHeader { return; }
      status, wroteHeader := code, true;
    }

    method Write(b: Bytes) returns (n: nat, failed: bool)
      modifies this
      ensures Value() == AfterCall(old(Value()), Call.Write(b))
      ensures failed == Value().tooLarge && n == if failed then 0 else |b|
    {
      WriteHeader(200);
      if err { return 0, true; }
      if |b| > MAX_RESPONSE - |body| {
        err := true;
        return 0, true;
      }
      body := body + b;
      return |b|, false;
    }
  }

  /** Everything the handler wrote, in order. */
  function Written(calls: seq<Call>): Bytes {
    if calls == [] then [] else (if calls[0].Write? then calls[0].bytes else []) + Written(calls[1..])
  }

  /** The first call that settles the status, or 200. */
  function SettledStatus(calls: seq<Call>): int {
    if calls == [] then 200
    else if calls[0].Write? then 200
    else if calls[0].code >= 200 then calls[0].code
    else SettledStatus(calls[1..])
  }

  lemma {:induction false} BodyAfter(r: Recording, calls: seq<Call>)
    requires |r.body| <= MAX_RESPONSE
    ensures AfterCalls(r, calls).tooLarge <==> r.tooLarge || |r.body| + |Written(calls)| > MAX_RESPONSE
    ensures !AfterCalls(r, calls).tooLarge ==> AfterCalls(r, calls).body == r.body + Written(calls)
    decreases |calls|
  {
    if calls == [] {
      assert r.body + [] == r.body;
    } else {
      BodyAfter(AfterCall(r, calls[0]), calls[1..]);
      var more := if calls[0].Write? then calls[0].bytes else [];
      Associative(r.body, more, Written(calls[1..]));
      assert r.body + [] == r.body;
    }
  }

  lemma {:induction false} StatusAfter(r: Recording, calls: seq<Call>)
    ensures r.wroteHeader ==> AfterCalls(r, calls).status == r.status
    ensures !r.wroteHeader && r.status == 200 ==> AfterCalls(r, calls).status == SettledStatus(calls)
    decreases |calls|
  {
    if calls != [] {
      StatusAfter(AfterCall(r, calls[0]), calls[1..]);
    }
  }

  /** A recording fails exactly when the handler writes more than the limit in all, even in writes that would fit one by
      one; otherwise it holds every byte written and the first final status, which informational ones do not settle. */
  lemma RecordedExactly(calls: seq<Call>)
    ensures Recorded(calls).tooLarge <==> |Written(calls)| > MAX_RESPONSE
    ensures !Recorded(calls).tooLarge ==> Recorded(calls).body == Written(calls)
    ensures Recorded(calls).status == SettledStatus(calls) >= 200
  {
    BodyAfter(Recording(200, false, [], false), calls);
    StatusAfter(Recording(200, false, [], false), calls);
    assert [] + Written(calls) == Written(calls);
    SettledIsFinal(calls);
  }

  lemma {:induction false} SettledIsFinal(calls: seq<Call>)
    ensures SettledStatus(calls) >= 200
  {
    if calls != [] { SettledIsFinal(calls[1..]); }
  }

  // ---------------------------------------------------------------- requests and their keys

  /** A request as its bytes: header values, a decoded path and a body need not be valid text. */
  datatype Request = Request(host: Bytes, tenant: Bytes, subject: Bytes, verb: Bytes, path: Bytes, key: Bytes,
                             query: Bytes, contentType: Bytes, contentEncoding: Bytes, body: Bytes)

  /** Keys and fingerprints are hashes of JSON texts. The hash is taken to be injective; the JSON text is not: it has one
      mark for every byte that is in no character. */
  type Text = seq<Unit>

  datatype CacheKey = CacheKey(host: Text, tenant: Text, subject: Text, verb: Text, path: Text, key: Text)

  datatype Fingerprint = Fingerprint(query: Text, contentType: Text, contentEncoding: Text, body: Text)

  function KeyOf(r: Request): CacheKey {
    CacheKey(Coerce(r.host), Coerce(r.tenant), Coerce(r.subject), Coerce(r.verb), Coerce(r.path), Coerce(r.key))
  }

  function FingerprintOf(r: Request): Fingerprint {
    Fingerprint(Coerce(r.query), Coerce(r.contentType), Coerce(r.contentEncoding), Coerce(r.body))
  }

  /** Every byte string of the request is valid UTF-8. */
  predicate WellEncoded(r: Request) {
    && ValidText(r.host) && ValidText(r.tenant) && ValidText(r.subject) && ValidText(r.verb) && ValidText(r.path)
    && ValidText(r.key) && ValidText(r.query) && ValidText(r.contentType) && ValidText(r.contentEncoding) && ValidText(r.body)
  }

  /** Two requests share key and fingerprint if and only if they agree in everything once coerced; well-encoded ones are
      then equal. */
  lemma SameKeyAndFingerprint(a: Request, b: Request)
    ensures WellEncoded(a) || WellEncoded(b) ==>
              (KeyOf(a) == KeyOf(b) && FingerprintOf(a) == FingerprintOf(b) <==> a == b)
    ensures FingerprintOf(a) == FingerprintOf(b) ==> |a.body| == |b.body| && (ValidText(a.body) ==> a.body == b.body)
  {
    if FingerprintOf(a) == FingerprintOf(b) {
      SameUnits(a.query, b.query);
      SameUnits(a.contentType, b.contentType);
      SameUnits(a.contentEncoding, b.contentEncoding);
      SameUnits(a.body, b.body);
    }
    if KeyOf(a) == KeyOf(b) {
      SameUnits(a.host, b.host);
      SameUnits(a.tenant, b.tenant);
      SameUnits(a.subject, b.subject);
      SameUnits(a.verb, b.verb);
      SameUnits(a.path, b.path);
      SameUnits(a.key, b.key);
    }
  }

  /** The request with one of its byte strings that are not valid changed. */
  lemma TwinRequest(a: Request) returns (b: Request)
    requires !WellEncoded(a)
    ensures b != a && KeyOf(b) == KeyOf(a) && FingerprintOf(b) == FingerprintOf(a)
  {
    if !ValidText(a.host) { var t := Twin(a.host); b := a.(host := t); }
    else if !ValidText(a.tenant) { var t := Twin(a.tenant); b := a.(tenant := t); }
    else if !ValidText(a.subject) { var t := Twin(a.subject); b := a.(subject := t); }
    else if !ValidText(a.verb) { var t := Twin(a.verb); b := a.(verb := t); }
    else if !ValidText(a.path) { var t := Twin(a.path); b := a.(path := t); }
    else if !ValidText(a.key) { var t := Twin(a.key); b := a.(key := t); }
    else if !ValidText(a.query) { var t := Twin(a.query); b := a.(query := t); }
    else if !ValidText(a.contentType) { var t := Twin(a.contentType); b := a.(contentType := t); }
    else if !ValidText(a.contentEncoding) { var t := Twin(a.contentEncoding); b := a.(contentEncoding := t); }
    else { var t := Twin(a.body); b := a.(body := t); }
  }

  /** A request is the only one with its key and fingerprint if and only if it is well encoded. */
  lemma AloneIffWellEncoded(a: Request)
    ensures WellEncoded(a) <==> forall b :: KeyOf(b) == KeyOf(a) && FingerprintOf(b) == FingerprintOf(a) ==> b == a
  {
    if WellEncoded(a) {
      forall b | KeyOf(b) == KeyOf(a) && FingerprintOf(b) == FingerprintOf(a) ensures b == a {
        SameKeyAndFingerprint(a, b);
      }
    } else {
      var b := TwinRequest(a);
    }
  }

  // ---------------------------------------------------------------- the protocol

  type Headers = map<string, seq<Bytes>>

  /** `run` names the handler run that made the response; the program does not keep it. */
  datatype Response = Response(status: int, headers: Headers, body: Bytes, fingerprint: Fingerprint, expiresAt: int, run: nat)

  function RepairedAll(values: seq<Bytes>): seq<Bytes> {
    seq(|values|, i requires 0 <= i < |values| => Repaired(values[i]))
  }

  /** A response as the store gives it back: bytes of header values that are in no character have been replaced. */
  function AsStored(r: Response): Response {
    r.(headers := map name | name in r.headers :: RepairedAll(r.headers[name]))
  }

  datatype Result = TooLarge | Crashed | Made(response: Response)

  /** A run of the handler for a request; it is live until it has a result. */
  datatype Run = Run(rid: nat, result: Option<Result>)

  datatype Phase = Looking | Running(run: nat) | Storing(response: Response) | Finished(result: Result)

  /** A single flight: the request that leads it and the ones that joined it. */
  datatype Flight = Flight(leader: nat, waiters: set<nat>, phase: Phase, replayed: bool)

  datatype Outcome =
    | Failed
    | Panicked
    | Conflict(recorded: Response)
    | Served(response: Response, marked: bool)

  datatype State = State(caching: bool, requests: seq<Request>, flights: map<CacheKey, Flight>, store: map<CacheKey, Response>,
                         runs: seq<Run>, outcomes: map<nat, Outcome>, now: int)

  datatype Step =
    | Arrive(request: Request)
    | LookUp(key: CacheKey)
    | Return(key: CacheKey, calls: seq<Call>, headers: Headers)
    | Panic(key: CacheKey)
    | Persist(key: CacheKey, ok: bool)
    | End(key: CacheKey)
    | Lose(key: CacheKey)
    | Tick(elapsed: nat)

  /** A stored response that has not expired. */
  predicate Valid(s: State, key: CacheKey) {
    key in s.store && s.now < s.store[key].expiresAt
  }

  predicate Enabled(s: State, step: Step) {
    match step
    case Arrive(_) => true
    case LookUp(key) => key in s.flights && s.flights[key].phase.Looking?
    case Return(key, _, _) => key in s.flights && s.flights[key].phase.Running? && s.flights[key].phase.run < |s.runs| && s.flights[key].leader < |s.requests|
    case Panic(key) => key in s.flights && s.flights[key].phase.Running? && s.flights[key].phase.run < |s.runs|
    case Persist(key, _) => key in s.flights && s.flights[key].phase.Storing?
    case End(key) => key in s.flights && s.flights[key].phase.Finished? && forall rid :: rid in Members(s.flights[key]) ==> rid < |s.requests|
    case Lose(key) => true
    case Tick(_) => true
  }

  function Members(f: Flight): set<nat> {
    {f.leader} + f.waiters
  }

  /** The response that the leader's handler run leaves, when it fits. */
  function ResponseOf(s: State, f: Flight, r: Recording, headers: Headers): Response
    requires f.leader < |s.requests| && f.phase.Running?
  {
    Response(r.status, headers - {"Set-Cookie", "X-Request-Id"}, r.body, FingerprintOf(s.requests[f.leader]), s.now + DAY, f.phase.run)
  }

  /** What a member of the flight sends to its client. */
  function Answer(s: State, f: Flight, rid: nat): Outcome
    requires f.phase.Finished? && rid < |s.requests|
  {
    match f.phase.result
    case TooLarge => Failed
    case Crashed => Panicked
    case Made(response) =>
      if response.fingerprint != FingerprintOf(s.requests[rid]) then Conflict(response)
      else Served(response, (rid == f.leader && f.replayed) || f.waiters != {})
  }

  function Do(s: State, step: Step): State
    requires Enabled(s, step)
  {
    match step
    case Arrive(request) =>
      var key, rid := KeyOf(request), |s.requests|;
      var f := if key in s.flights then s.flights[key].(waiters := s.flights[key].waiters + {rid}) else Flight(rid, {}, Looking, false);
      s.(requests := s.requests + [request], flights := s.flights[key := f])
    case LookUp(key) =>
      var f := s.flights[key];
      if s.caching && Valid(s, key) then
        s.(flights := s.flights[key := f.(phase := Finished(Made(s.store[key])), replayed := true)])
      else
        s.(flights := s.flights[key := f.(phase := Running(|s.runs|))], runs := s.runs + [Run(f.leader, None)])
    case Return(key, calls, headers) =>
      var f, r := s.flights[key], Recorded(calls);
      var result := if r.tooLarge then TooLarge else Made(ResponseOf(s, f, r, headers));
      var phase := if result.Made? && s.caching && 200 <= r.status < 400 then Storing(result.response) else Finished(result);
      s.(flights := s.flights[key := f.(phase := phase)], runs := s.runs[f.phase.run := s.runs[f.phase.run].(result := Some(result))])
    case Panic(key) =>
      var f := s.flights[key];
      s.(flights := s.flights[key := f.(phase := Finished(Crashed))], runs := s.runs[f.phase.run := s.runs[f.phase.run].(result := Some(Crashed))])
    case Persist(key, ok) =>
      var f := s.flights[key];
      s.(flights := s.flights[key := f.(phase := Finished(Made(f.phase.response)))],
         store := if ok then s.store[key := AsStored(f.phase.response)] else s.store)
    case End(key) =>
      var f := s.flights[key];
      s.(flights := s.flights - {key}, outcomes := s.outcomes + map rid | rid in Members(f) :: Answer(s, f, rid))
    case Lose(key) => s.(store := s.store - {key})
    case Tick(elapsed) => s.(now := s.now + elapsed)
  }

  predicate Init(s: State) {
    s.requests == [] && s.flights == map[] && s.store == map[] && s.runs == [] && s.outcomes == map[]
  }

  ghost predicate NextAt(states: seq<State>, steps: seq<Step>, i: nat)
    requires |states| == |steps| + 1 && i < |steps|
  {
    Enabled(states[i], steps[i]) && states[i + 1] == Do(states[i], steps[i])
  }

  /** A run of the whole system, in any interleaving. */
  ghost predicate Execution(states: seq<State>, steps: seq<Step>) {
    && |states| == |steps| + 1
    && Init(states[0])
    && (forall i {:trigger NextAt(states, steps, i)} :: 0 <= i < |steps| ==> NextAt(states, steps, i))
  }

  // ---------------------------------------------------------------- the invariant

  /** The response is what a handler run for a request of this key made. */
  predicate RecordedFor(s: State, key: CacheKey, r: Response) {
    && r.run < |s.runs| && s.runs[r.run].rid < |s.requests|
    && KeyOf(s.requests[s.runs[r.run].rid]) == key
    && FingerprintOf(s.requests[s.runs[r.run].rid]) == r.fingerprint
    && Left(s.runs[r.run].result, r)
  }

  /** The response is the one the run made, or that one as the store gives it back. */
  predicate Left(result: Option<Result>, r: Response) {
    result.Some? && result.value.Made? && (r == result.value.response || r == AsStored(result.value.response))
  }

  predicate Joined(s: State, key: CacheKey, rid: nat) {
    rid < |s.requests| && KeyOf(s.requests[rid]) == key && rid !in s.outcomes
  }

  /** A run for the request had this result. */
  predicate RanInto(s: State, rid: nat, result: Result) {
    exists i :: 0 <= i < |s.runs| && s.runs[i] == Run(rid, Some(result))
  }

  predicate PhaseOk(s: State, key: CacheKey, f: Flight) {
    match f.phase
    case Looking => !f.replayed
    case Running(run) => !f.replayed && run < |s.runs| && s.runs[run] == Run(f.leader, None) && !Valid(s, key)
    case Storing(r) =>
      && s.caching && !f.replayed && RecordedFor(s, key, r) && s.runs[r.run] == Run(f.leader, Some(Made(r)))
      && !Valid(s, key) && 200 <= r.status < 400
    case Finished(result) =>
      if result.Made? then RecordedFor(s, key, result.response) && (f.replayed <==> s.runs[result.response.run].rid != f.leader)
      else !f.replayed && RanInto(s, f.leader, result)
  }

  ghost predicate FlightsOk(s: State) {
    forall key :: key in s.flights ==>
      && (forall rid :: rid in Members(s.flights[key]) ==> Joined(s, key, rid))
      && s.flights[key].leader !in s.flights[key].waiters
      && PhaseOk(s, key, s.flights[key])
  }

  ghost predicate StoreOk(s: State) {
    && (s.store != map[] ==> s.caching)
    && (forall key :: key in s.store ==> RecordedFor(s, key, s.store[key]) && 200 <= s.store[key].status < 400)
  }

  /** The request whose run made a stored response has been answered, or leads the flight that is about to. */
  predicate Settled(s: State, key: CacheKey, r: Response) {
    && r.run < |s.runs|
    && var rid := s.runs[r.run].rid;
    rid in s.outcomes || (key in s.flights && s.flights[key].leader == rid && s.flights[key].phase.Finished?)
  }

  ghost predicate StoreSettled(s: State) {
    forall key :: key in s.store ==> Settled(s, key, s.store[key])
  }

  /** A live run is the one its key's flight is waiting for. */
  ghost predicate RunsOk(s: State) {
    forall i :: 0 <= i < |s.runs| ==> RunOk(s, i)
  }

  /** The answer a request got is right for it. */
  predicate OutcomeOk(s: State, rid: nat, o: Outcome)
    requires rid < |s.requests|
  {
    match o
    case Failed => true
    case Panicked => true
    case Conflict(r) => RecordedFor(s, KeyOf(s.requests[rid]), r) && r.fingerprint != FingerprintOf(s.requests[rid])
    case Served(r, marked) =>
      && RecordedFor(s, KeyOf(s.requests[rid]), r) && r.fingerprint == FingerprintOf(s.requests[rid])
      && (!marked ==> s.runs[r.run].rid == rid)
  }

  ghost predicate OutcomesOk(s: State) {
    forall rid :: rid in s.outcomes ==> rid < |s.requests| && OutcomeOk(s, rid, s.outcomes[rid])
  }

  /** Nobody is forgotten: a request without an answer is a member of its key's flight. */
  ghost predicate AllCounted(s: State) {
    forall rid :: 0 <= rid < |s.requests| && rid !in s.outcomes ==>
      var key := KeyOf(s.requests[rid]);
      key in s.flights && rid in Members(s.flights[key])
  }

  ghost predicate Inv(s: State) {
    FlightsOk(s) && StoreOk(s) && StoreSettled(s) && RunsOk(s) && OutcomesOk(s) && AllCounted(s)
  }

  /** Requests stay, runs keep their request, and results do not change. */
  ghost predicate Grows(s: State, s': State) {
    && s.caching == s'.caching && s.requests <= s'.requests
    && |s.runs| <= |s'.runs|
    && (forall i :: 0 <= i < |s.runs| ==> s'.runs[i].rid == s.runs[i].rid && (s.runs[i].result.Some? ==> s'.runs[i].result == s.runs[i].result))
  }

  lemma RecordedStays(s: State, s': State, key: CacheKey, r: Response)
    requires Grows(s, s') && RecordedFor(s, key, r)
    ensures RecordedFor(s', key, r)
  {
  }

  lemma StepGrows(s: State, step: Step)
    requires FlightsOk(s) && Enabled(s, step)
    ensures Grows(s, Do(s, step))
  {
    if step.Return? || step.Panic? {
      assert PhaseOk(s, step.key, s.flights[step.key]);
    }
  }

  lemma StoredBefore(s: State, step: Step, key: CacheKey)
    requires FlightsOk(s) && StoreOk(s) && Enabled(s, step) && key in Do(s, step).store
    ensures RecordedFor(s, key, Do(s, step).store[key]) && 200 <= Do(s, step).store[key].status < 400
  {
    if step.Persist? && step.key == key && step.ok {
      PersistStores(s, key);
    } else {
      StoreStays(s, step, key);
    }
  }

  lemma StoreStays(s: State, step: Step, key: CacheKey)
    requires Enabled(s, step) && key in Do(s, step).store && !(step.Persist? && step.key == key && step.ok)
    ensures key in s.store && Do(s, step).store[key] == s.store[key]
  {
  }

  lemma PersistStores(s: State, key: CacheKey)
    requires FlightsOk(s) && Enabled(s, Persist(key, true))
    ensures var r := AsStored(s.flights[key].phase.response);
            Do(s, Persist(key, true)).store[key] == r && RecordedFor(s, key, r) && 200 <= r.status < 400
  {
    assert PhaseOk(s, key, s.flights[key]);
  }

  lemma StoreKept(s: State, step: Step)
    requires FlightsOk(s) && StoreOk(s) && Enabled(s, step)
    ensures StoreOk(Do(s, step))
  {
    StepGrows(s, step);
    var s' := Do(s, step);
    if step.Persist? { assert PhaseOk(s, step.key, s.flights[step.key]); }
    forall key | key in s'.store ensures RecordedFor(s', key, s'.store[key]) && 200 <= s'.store[key].status < 400 {
      StoredBefore(s, step, key);
      RecordedStays(s, s', key, s'.store[key]);
    }
  }

  lemma SettledKept(s: State, step: Step)
    requires FlightsOk(s) && StoreOk(s) && StoreSettled(s) && Enabled(s, step)
    ensures StoreSettled(Do(s, step))
  {
    StepGrows(s, step);
    var s' := Do(s, step);
    forall key | key in s'.store ensures Settled(s', key, s'.store[key]) {
      if step.Persist? && step.key == key && step.ok {
        assert PhaseOk(s, key, s.flights[key]);
      } else {
        StoreStays(s, step, key);
        SettledStays(s, step, key, s.store[key]);
      }
    }
  }

  lemma SettledStays(s: State, step: Step, key: CacheKey, r: Response)
    requires Enabled(s, step) && Settled(s, key, r) && Grows(s, Do(s, step))
    ensures Settled(Do(s, step), key, r)
  {
  }

  predicate RunOk(s: State, i: nat)
    requires i < |s.runs|
  {
    && s.runs[i].rid < |s.requests|
    && (s.runs[i].result.None? ==>
          var key := KeyOf(s.requests[s.runs[i].rid]);
          key in s.flights && s.flights[key].phase == Running(i))
  }

  lemma RunsKept(s: State, step: Step)
    requires FlightsOk(s) && RunsOk(s) && Enabled(s, step)
    ensures RunsOk(Do(s, step))
  {
    var s' := Do(s, step);
    forall i | 0 <= i < |s'.runs| ensures RunOk(s', i) {
      if i < |s.runs| { OldRunKept(s, step, i); } else { NewRun(s, step.key); }
    }
  }

  lemma OldRunKept(s: State, step: Step, i: nat)
    requires Enabled(s, step) && i < |s.runs| && RunOk(s, i) && i < |Do(s, step).runs|
    ensures RunOk(Do(s, step), i)
  {
  }

  lemma NewRun(s: State, key: CacheKey)
    requires FlightsOk(s) && Enabled(s, LookUp(key)) && |Do(s, LookUp(key)).runs| > |s.runs|
    ensures RunOk(Do(s, LookUp(key)), |s.runs|)
  {
    var f := s.flights[key];
    assert f.leader in Members(f) && Joined(s, key, f.leader);
  }

  /** What a member of a flight is told is right for it. */
  lemma AnswerIsRight(s: State, key: CacheKey, rid: nat)
    requires FlightsOk(s) && key in s.flights && s.flights[key].phase.Finished? && rid in Members(s.flights[key])
    ensures rid < |s.requests| && OutcomeOk(s, rid, Answer(s, s.flights[key], rid))
  {
    assert Joined(s, key, rid);
    assert PhaseOk(s, key, s.flights[key]);
  }

  lemma OutcomeStays(s: State, s': State, rid: nat, o: Outcome)
    requires Grows(s, s') && rid < |s.requests| && OutcomeOk(s, rid, o)
    ensures rid < |s'.requests| && OutcomeOk(s', rid, o)
  {
  }

  lemma OutcomeBefore(s: State, step: Step, rid: nat)
    requires FlightsOk(s) && OutcomesOk(s) && Enabled(s, step) && rid in Do(s, step).outcomes
    ensures rid < |s.requests| && OutcomeOk(s, rid, Do(s, step).outcomes[rid])
  {
    if step.End? && rid in Members(s.flights[step.key]) {
      AnswerIsRight(s, step.key, rid);
    } else {
      assert Do(s, step).outcomes[rid] == s.outcomes[rid];
    }
  }

  lemma OutcomesKept(s: State, step: Step)
    requires FlightsOk(s) && OutcomesOk(s) && Enabled(s, step)
    ensures OutcomesOk(Do(s, step))
  {
    StepGrows(s, step);
    var s' := Do(s, step);
    forall rid | rid in s'.outcomes ensures rid < |s'.requests| && OutcomeOk(s', rid, s'.outcomes[rid]) {
      OutcomeBefore(s, step, rid);
      OutcomeStays(s, s', rid, s'.outcomes[rid]);
    }
  }

  lemma AllCountedKept(s: State, step: Step)
    requires AllCounted(s) && Enabled(s, step)
    ensures AllCounted(Do(s, step))
  {
    var s' := Do(s, step);
    forall rid | 0 <= rid < |s'.requests| && rid !in s'.outcomes
      ensures var key := KeyOf(s'.requests[rid]);
              key in s'.flights && rid in Members(s'.flights[key])
    {
      assert rid < |s.requests| ==> s'.requests[rid] == s.requests[rid];
    }
  }

  /** A flight's members stay members: what a step does to the other flights does not concern it. */
  lemma MembersKept(s: State, step: Step, key: CacheKey, rid: nat)
    requires FlightsOk(s) && OutcomesOk(s) && Enabled(s, step)
    requires var s' := Do(s, step); key in s'.flights && rid in Members(s'.flights[key])
    ensures Joined(Do(s, step), key, rid)
  {
    var s' := Do(s, step);
    if key in s.flights && rid in Members(s.flights[key]) {
      assert Joined(s, key, rid);
      if step.End? {
        assert rid in Members(s.flights[step.key]) ==> Joined(s, step.key, rid);
      }
    } else {
      assert step.Arrive? && rid == |s.requests|;
      assert rid in s.outcomes ==> rid < |s.requests|;
    }
  }

  /** Nothing the flight depends on has changed. */
  lemma PhaseStays(s: State, s': State, key: CacheKey, f: Flight)
    requires Grows(s, s') && PhaseOk(s, key, f)
    requires f.phase.Running? ==> s'.runs[f.phase.run] == s.runs[f.phase.run]
    requires f.phase.Running? || f.phase.Storing? ==> Valid(s', key) ==> Valid(s, key)
    ensures forall more :: PhaseOk(s', key, f.(waiters := more))
  {
    if f.phase.Finished? && !f.phase.result.Made? {
      var i :| 0 <= i < |s.runs| && s.runs[i] == Run(f.leader, Some(f.phase.result));
      assert s'.runs[i] == s.runs[i];
    }
  }

  lemma ValidByPersist(s: State, step: Step, key: CacheKey)
    requires Enabled(s, step) && Valid(Do(s, step), key)
    ensures Valid(s, key) || (step.Persist? && step.key == key)
  {
  }

  lemma OtherRunsStay(s: State, step: Step, key: CacheKey)
    requires FlightsOk(s) && Enabled(s, step) && key in s.flights && s.flights[key].phase.Running?
    requires (step.Return? || step.Panic?) ==> step.key != key
    ensures var i := s.flights[key].phase.run;
            i < |s.runs| && i < |Do(s, step).runs| && Do(s, step).runs[i] == s.runs[i]
  {
    var f := s.flights[key];
    assert PhaseOk(s, key, f) && f.leader in Members(f) && Joined(s, key, f.leader);
    if step.Return? || step.Panic? {
      var g := s.flights[step.key];
      assert PhaseOk(s, step.key, g) && g.leader in Members(g) && Joined(s, step.key, g.leader);
    }
  }

  predicate Moves(step: Step, key: CacheKey) {
    (step.LookUp? || step.Return? || step.Panic? || step.Persist? || step.End?) && step.key == key
  }

  lemma PhaseKept(s: State, step: Step, key: CacheKey)
    requires FlightsOk(s) && StoreOk(s) && StoreSettled(s) && Enabled(s, step) && key in Do(s, step).flights
    ensures PhaseOk(Do(s, step), key, Do(s, step).flights[key])
  {
    if key in s.flights {
      if Moves(step, key) {
        PhaseMoved(s, step, key);
      } else {
        StepGrows(s, step);
        if Valid(Do(s, step), key) { ValidByPersist(s, step, key); }
        if s.flights[key].phase.Running? { OtherRunsStay(s, step, key); }
        PhaseStays(s, Do(s, step), key, s.flights[key]);
        FlightStays(s, step, key);
      }
    }
  }

  lemma FlightStays(s: State, step: Step, key: CacheKey)
    requires Enabled(s, step) && key in s.flights && !Moves(step, key)
    ensures key in Do(s, step).flights
    ensures Do(s, step).flights[key] == s.flights[key].(waiters := Do(s, step).flights[key].waiters)
  {
  }

  lemma PhaseMoved(s: State, step: Step, key: CacheKey)
    requires FlightsOk(s) && StoreOk(s) && StoreSettled(s) && Enabled(s, step) && key in s.flights && key in Do(s, step).flights && Moves(step, key)
    ensures PhaseOk(Do(s, step), key, Do(s, step).flights[key])
  {
    var f := s.flights[key];
    assert PhaseOk(s, key, f) && f.leader in Members(f) && Joined(s, key, f.leader);
    match step
    case LookUp(_) => LookUpMoves(s, key);
    case Return(_, calls, headers) => ReturnMoves(s, key, calls, headers);
    case Panic(_) => PanicMoves(s, key);
    case Persist(_, ok) => PersistMoves(s, key, ok);
  }

  lemma LookUpMoves(s: State, key: CacheKey)
    requires StoreOk(s) && StoreSettled(s) && Enabled(s, LookUp(key)) && Joined(s, key, s.flights[key].leader) && PhaseOk(s, key, s.flights[key])
    ensures PhaseOk(Do(s, LookUp(key)), key, Do(s, LookUp(key)).flights[key])
  {
  }

  lemma ReturnMoves(s: State, key: CacheKey, calls: seq<Call>, headers: Headers)
    requires Enabled(s, Return(key, calls, headers)) && Joined(s, key, s.flights[key].leader) && PhaseOk(s, key, s.flights[key])
    ensures PhaseOk(Do(s, Return(key, calls, headers)), key, Do(s, Return(key, calls, headers)).flights[key])
  {
    var s', i := Do(s, Return(key, calls, headers)), s.flights[key].phase.run;
    assert s'.runs[i] == Run(s.flights[key].leader, s'.runs[i].result);
  }

  lemma PanicMoves(s: State, key: CacheKey)
    requires Enabled(s, Panic(key)) && PhaseOk(s, key, s.flights[key])
    ensures PhaseOk(Do(s, Panic(key)), key, Do(s, Panic(key)).flights[key])
  {
    var s' := Do(s, Panic(key));
    assert s'.runs[s.flights[key].phase.run] == Run(s.flights[key].leader, Some(Crashed));
  }

  lemma PersistMoves(s: State, key: CacheKey, ok: bool)
    requires Enabled(s, Persist(key, ok)) && PhaseOk(s, key, s.flights[key])
    ensures PhaseOk(Do(s, Persist(key, ok)), key, Do(s, Persist(key, ok)).flights[key])
  {
  }

  lemma LeaderApart(s: State, step: Step, key: CacheKey)
    requires FlightsOk(s) && Enabled(s, step) && key in Do(s, step).flights
    ensures Do(s, step).flights[key].leader !in Do(s, step).flights[key].waiters
  {
    if key in s.flights {
      assert s.flights[key].leader in Members(s.flights[key]);
      assert Joined(s, key, s.flights[key].leader);
    }
  }

  lemma FlightsKept(s: State, step: Step)
    requires FlightsOk(s) && StoreOk(s) && StoreSettled(s) && OutcomesOk(s) && Enabled(s, step)
    ensures FlightsOk(Do(s, step))
  {
    var s' := Do(s, step);
    forall key | key in s'.flights
      ensures forall rid :: rid in Members(s'.flights[key]) ==> Joined(s', key, rid)
      ensures s'.flights[key].leader !in s'.flights[key].waiters
      ensures PhaseOk(s', key, s'.flights[key])
    {
      PhaseKept(s, step, key);
      forall rid | rid in Members(s'.flights[key]) ensures Joined(s', key, rid) {
        MembersKept(s, step, key, rid);
      }
      LeaderApart(s, step, key);
    }
  }

  lemma InvKept(s: State, step: Step)
    requires Inv(s) && Enabled(s, step)
    ensures Inv(Do(s, step))
  {
    FlightsKept(s, step);
    StoreKept(s, step);
    SettledKept(s, step);
    RunsKept(s, step);
    OutcomesKept(s, step);
    AllCountedKept(s, step);
  }

  lemma InvNext(s: State, step: Step, s': State)
    requires Inv(s) && Enabled(s, step) && s' == Do(s, step)
    ensures Inv(s')
  {
    InvKept(s, step);
  }

  lemma InitInv(s: State)
    requires Init(s)
    ensures Inv(s)
  {
  }

  lemma {:induction false} AlwaysInv(states: seq<State>, steps: seq<Step>, i: nat)
    requires Execution(states, steps) && i < |states|
    ensures Inv(states[i])
    decreases i
  {
    if i == 0 {
      InitInv(states[0]);
    } else {
      AlwaysInv(states, steps, i - 1);
      assert NextAt(states, steps, i - 1);
      InvNext(states[i - 1], steps[i - 1], states[i]);
    }
  }

  // ---------------------------------------------------------------- what the protocol gives

  predicate Live(s: State, i: nat)
    requires i < |s.runs|
  {
    s.runs[i].result.None?
  }

  /** In every interleaving at most one handler run per key is in flight, and none while a response for it is stored
      and has not expired. */
  lemma OneRunAtATime(states: seq<State>, steps: seq<Step>, n: nat, i: nat, j: nat)
    requires Execution(states, steps) && n < |states|
    requires i < |states[n].runs| && j < |states[n].runs| && Live(states[n], i) && Live(states[n], j)
    ensures states[n].runs[i].rid < |states[n].requests| && states[n].runs[j].rid < |states[n].requests|
    ensures var s := states[n];
            && (KeyOf(s.requests[s.runs[i].rid]) == KeyOf(s.requests[s.runs[j].rid]) ==> i == j)
            && !Valid(s, KeyOf(s.requests[s.runs[i].rid]))
  {
    AlwaysInv(states, steps, n);
    var s := states[n];
    assert RunOk(s, i) && RunOk(s, j);
    assert PhaseOk(s, KeyOf(s.requests[s.runs[i].rid]), s.flights[KeyOf(s.requests[s.runs[i].rid])]);
  }

  // ---------------------------------------------------------------- what a handler run leaves

  const DROPPED: set<string> := {"Set-Cookie", "X-Request-Id"}

  /** The values are those given, each possibly repaired. */
  predicate SameUpToRepair(values: seq<Bytes>, given: seq<Bytes>) {
    |values| == |given| && forall i :: 0 <= i < |given| ==> values[i] == given[i] || values[i] == Repaired(given[i])
  }

  /** The response has everything the handler wrote, the status that settled, and all its headers but two. */
  predicate Reports(r: Response, calls: seq<Call>, headers: Headers) {
    && |Written(calls)| <= MAX_RESPONSE
    && r.body == Written(calls) && r.status == SettledStatus(calls)
    && r.headers.Keys == headers.Keys - DROPPED
    && (forall name :: name in r.headers ==> SameUpToRepair(r.headers[name], headers[name]))
  }

  predicate Unrepaired(r: Response, headers: Headers) {
    forall name :: name in r.headers && name in headers ==> r.headers[name] == headers[name]
  }

  /** The step ends handler run `i`, with this result: a report of what the handler did, unless that was too much. */
  ghost predicate Ends(s: State, step: Step, i: nat, result: Result) {
    match step
    case Return(key, calls, headers) =>
      && key in s.flights && s.flights[key].phase == Running(i)
      && if |Written(calls)| > MAX_RESPONSE then result == TooLarge
         else result.Made? && Reports(result.response, calls, headers) && Unrepaired(result.response, headers) && result.response.expiresAt == s.now + DAY
    case Panic(key) => key in s.flights && s.flights[key].phase == Running(i) && result == Crashed
    case _ => false
  }

  lemma ReturnEnds(s: State, key: CacheKey, calls: seq<Call>, headers: Headers, i: nat)
    requires Enabled(s, Return(key, calls, headers)) && s.flights[key].phase == Running(i)
    ensures Do(s, Return(key, calls, headers)).runs[i].result.Some?
    ensures Ends(s, Return(key, calls, headers), i, Do(s, Return(key, calls, headers)).runs[i].result.value)
  {
    RecordedExactly(calls);
    assert (headers - {"Set-Cookie", "X-Request-Id"}).Keys == headers.Keys - DROPPED;
  }

  lemma EndsNow(s: State, step: Step, i: nat)
    requires FlightsOk(s) && Enabled(s, step) && i < |Do(s, step).runs| && Do(s, step).runs[i].result.Some?
    ensures i < |s.runs|
    ensures (s.runs[i].result == Do(s, step).runs[i].result) || Ends(s, step, i, Do(s, step).runs[i].result.value)
  {
    if step.Return? {
      assert PhaseOk(s, step.key, s.flights[step.key]);
      if s.flights[step.key].phase == Running(i) { ReturnEnds(s, step.key, step.calls, step.headers, i); }
    }
  }

  /** The step that ended a run that has a result. */
  lemma {:induction false} EndedBy(states: seq<State>, steps: seq<Step>, n: nat, i: nat) returns (k: nat)
    requires Execution(states, steps) && n < |states| && i < |states[n].runs| && states[n].runs[i].result.Some?
    ensures k < n && Ends(states[k], steps[k], i, states[n].runs[i].result.value)
    decreases n
  {
    k := n - 1;
    if n > 0 {
      AlwaysInv(states, steps, n - 1);
      assert NextAt(states, steps, n - 1);
      EndsNow(states[n - 1], steps[n - 1], i);
      if !Ends(states[n - 1], steps[n - 1], i, states[n].runs[i].result.value) {
        k := EndedBy(states, steps, n - 1, i);
      }
    }
  }

  /** The store's copy of a response reports the same. */
  lemma StoredReports(r: Response, calls: seq<Call>, headers: Headers)
    requires Reports(r, calls, headers) && Unrepaired(r, headers)
    ensures Reports(AsStored(r), calls, headers)
  {
  }

  /** A response that a run left, directly or through the store, reports what the handler of that run did. */
  lemma LeftReports(states: seq<State>, steps: seq<Step>, n: nat, r: Response) returns (k: nat)
    requires Execution(states, steps) && n < |states| && r.run < |states[n].runs| && Left(states[n].runs[r.run].result, r)
    ensures k < n && steps[k].Return? && Reports(r, steps[k].calls, steps[k].headers)
    ensures r.expiresAt == states[k].now + DAY
    ensures steps[k].key in states[k].flights && states[k].flights[steps[k].key].phase == Running(r.run)
  {
    k := EndedBy(states, steps, n, r.run);
    StoredReports(states[n].runs[r.run].result.value.response, steps[k].calls, steps[k].headers);
  }

  /** A response is served only to a request that agrees, once coerced, in everything with the one whose handler run made
      it, so to an equal one if either is well encoded. It is a report of all that handler wrote: step `k` is the return
      of that run. Without the replay mark it goes to that very request. */
  lemma ServedTheRightResponse(states: seq<State>, steps: seq<Step>, n: nat, rid: nat) returns (k: nat)
    requires Execution(states, steps) && n < |states| && rid in states[n].outcomes && states[n].outcomes[rid].Served?
    ensures var s := states[n];
            var r := s.outcomes[rid].response;
            && rid < |s.requests| && r.run < |s.runs| && s.runs[r.run].rid < |s.requests|
            && var served, made := s.requests[rid], s.requests[s.runs[r.run].rid];
            && KeyOf(served) == KeyOf(made) && FingerprintOf(served) == FingerprintOf(made)
            && (WellEncoded(served) || WellEncoded(made) ==> served == made)
            && (!s.outcomes[rid].marked ==> s.runs[r.run].rid == rid)
    ensures k < n && steps[k].Return? && Reports(states[n].outcomes[rid].response, steps[k].calls, steps[k].headers)
    ensures steps[k].key in states[k].flights && states[k].flights[steps[k].key].phase == Running(states[n].outcomes[rid].response.run)
  {
    AlwaysInv(states, steps, n);
    var s := states[n];
    assert OutcomeOk(s, rid, s.outcomes[rid]);
    SameKeyAndFingerprint(s.requests[rid], s.requests[s.runs[s.outcomes[rid].response.run].rid]);
    k := LeftReports(states, steps, n, s.outcomes[rid].response);
  }

  /** A request is refused because its key was used for a different request if and only if its own fingerprint differs
      from that of the request whose run made the response. */
  lemma ConflictExactly(states: seq<State>, steps: seq<Step>, n: nat, key: CacheKey, rid: nat)
    requires Execution(states, steps) && n < |states| && key in states[n].flights && rid in Members(states[n].flights[key])
    requires states[n].flights[key].phase.Finished? && states[n].flights[key].phase.result.Made?
    ensures var s := states[n];
            var run := s.flights[key].phase.result.response.run;
            && rid < |s.requests| && run < |s.runs| && s.runs[run].rid < |s.requests|
            && (Answer(s, s.flights[key], rid).Conflict? <==> FingerprintOf(s.requests[rid]) != FingerprintOf(s.requests[s.runs[run].rid]))
            && (Answer(s, s.flights[key], rid).Conflict? || Answer(s, s.flights[key], rid).Served?)
  {
    AlwaysInv(states, steps, n);
    assert Joined(states[n], key, rid) && PhaseOk(states[n], key, states[n].flights[key]);
  }

  /** What the members of a finished flight are told, and why: a response is marked as replayed unless it was made for
      this very request and nobody else waited for it; an error means that the handler run of the leader wrote too much,
      a panic that it panicked. */
  lemma Explained(states: seq<State>, steps: seq<Step>, n: nat, key: CacheKey, rid: nat) returns (k: nat)
    requires Execution(states, steps) && n < |states| && key in states[n].flights && rid in Members(states[n].flights[key])
    requires states[n].flights[key].phase.Finished?
    ensures var s, f := states[n], states[n].flights[key];
            && rid < |s.requests|
            && match Answer(s, f, rid)
               case Served(r, marked) => r.run < |s.runs| && (marked <==> s.runs[r.run].rid != rid || f.waiters != {})
               case Conflict(_) => true
               case Failed => k < n && steps[k].Return? && steps[k].key == key && |Written(steps[k].calls)| > MAX_RESPONSE
               case Panicked => k < n && steps[k] == Panic(key)
  {
    AlwaysInv(states, steps, n);
    var s, f := states[n], states[n].flights[key];
    assert Joined(s, key, rid) && f.leader in Members(f) && Joined(s, key, f.leader) && PhaseOk(s, key, f);
    k := 0;
    if !f.phase.result.Made? {
      var i :| 0 <= i < |s.runs| && s.runs[i] == Run(f.leader, Some(f.phase.result));
      k := EndedBy(states, steps, n, i);
      KeyOfRun(states, steps, k, n, i);
    }
  }

  lemma {:induction false} GrowsRun(states: seq<State>, steps: seq<Step>, m: nat, n: nat)
    requires Execution(states, steps) && m <= n < |states|
    ensures Grows(states[m], states[n])
    decreases n
  {
    if m < n {
      GrowsRun(states, steps, m, n - 1);
      AlwaysInv(states, steps, n - 1);
      assert NextAt(states, steps, n - 1);
      StepGrows(states[n - 1], steps[n - 1]);
    }
  }

  /** The step that ends a run names the key of the run's request. */
  lemma KeyOfRun(states: seq<State>, steps: seq<Step>, k: nat, n: nat, i: nat)
    requires Execution(states, steps) && k < n < |states| && i < |states[n].runs| && states[n].runs[i].rid < |states[n].requests|
    requires steps[k].Return? || steps[k].Panic?
    requires steps[k].key in states[k].flights && states[k].flights[steps[k].key].phase == Running(i)
    ensures KeyOf(states[n].requests[states[n].runs[i].rid]) == steps[k].key
  {
    AlwaysInv(states, steps, k);
    GrowsRun(states, steps, k, n);
    var s, key := states[k], steps[k].key;
    var f := s.flights[key];
    assert PhaseOk(s, key, f) && f.leader in Members(f) && Joined(s, key, f.leader);
  }

  /** A request is answered or a member of one flight, never both. */
  lemma AnsweredOrWaiting(states: seq<State>, steps: seq<Step>, n: nat, rid: nat)
    requires Execution(states, steps) && n < |states| && rid < |states[n].requests|
    ensures rid in states[n].outcomes <==> forall key :: key in states[n].flights ==> rid !in Members(states[n].flights[key])
  {
    AlwaysInv(states, steps, n);
    var s := states[n];
    forall key | key in s.flights && rid in Members(s.flights[key]) ensures rid !in s.outcomes {
      assert Joined(s, key, rid);
    }
  }

  predicate StartsRun(s: State, step: Step, key: CacheKey) {
    step == LookUp(key) && key in s.flights && !(s.caching && Valid(s, key))
  }

  /** The steps that give a key a new handler run are exactly the look-ups that find no valid response. */
  lemma RunStarts(s: State, step: Step, key: CacheKey)
    requires Inv(s) && Enabled(s, step)
    ensures StartsRun(s, step, key)
            <==> var rs := Do(s, step).runs;
                 |rs| > |s.runs| && rs[|s.runs|].rid < |s.requests| && KeyOf(s.requests[rs[|s.runs|].rid]) == key
  {
    if step.LookUp? {
      var f := s.flights[step.key];
      assert f.leader in Members(f) && Joined(s, step.key, f.leader);
    }
  }

  lemma ValidStays(s: State, step: Step, key: CacheKey)
    requires FlightsOk(s) && Enabled(s, step) && Valid(s, key) && step != Lose(key)
    ensures key in Do(s, step).store && Do(s, step).store[key] == s.store[key]
  {
    if step.Persist? { assert PhaseOk(s, step.key, s.flights[step.key]); }
  }

  lemma {:induction false} TimePasses(states: seq<State>, steps: seq<Step>, m: nat, n: nat)
    requires Execution(states, steps) && m <= n < |states|
    ensures states[m].now <= states[n].now && states[m].caching == states[n].caching
    decreases n
  {
    if m < n {
      TimePasses(states, steps, m, n - 1);
      assert NextAt(states, steps, n - 1);
    }
  }

  lemma StopsNow(states: seq<State>, steps: seq<Step>, key: CacheKey, i: nat)
    requires Execution(states, steps) && i < |steps|
    requires states[i].caching && Valid(states[i], key) && steps[i] != Lose(key)
    ensures key in states[i + 1].store && states[i + 1].store[key] == states[i].store[key]
    ensures !StartsRun(states[i], steps[i], key)
  {
    AlwaysInv(states, steps, i);
    assert NextAt(states, steps, i);
    ValidStays(states[i], steps[i], key);
  }

  /** A stored response stops every further run of its key, and is not replaced, until it expires or is lost. */
  lemma {:induction false} StoredStops(states: seq<State>, steps: seq<Step>, key: CacheKey, m: nat, n: nat)
    requires Execution(states, steps) && m <= n < |states|
    requires states[m].caching && key in states[m].store && states[n].now < states[m].store[key].expiresAt
    requires forall i :: m <= i < n ==> steps[i] != Lose(key)
    ensures key in states[n].store && states[n].store[key] == states[m].store[key]
    ensures forall i :: m <= i < n ==> !StartsRun(states[i], steps[i], key)
    decreases n
  {
    if m < n {
      TimePasses(states, steps, n - 1, n);
      TimePasses(states, steps, m, n - 1);
      StoredStops(states, steps, key, m, n - 1);
      StopsNow(states, steps, key, n - 1);
    }
  }

  /** Only successes and redirections are stored, each a report of all that the handler of a run for this key wrote, for
      a day from its return. */
  lemma StoredAsMade(states: seq<State>, steps: seq<Step>, n: nat, key: CacheKey) returns (k: nat)
    requires Execution(states, steps) && n < |states| && key in states[n].store
    ensures var r := states[n].store[key];
            && 200 <= r.status < 400 && RecordedFor(states[n], key, r)
            && k < n && steps[k].Return? && Reports(r, steps[k].calls, steps[k].headers) && r.expiresAt == states[k].now + DAY
  {
    AlwaysInv(states, steps, n);
    k := LeftReports(states, steps, n, states[n].store[key]);
  }

  /** Step `m` hands the response of this run to the store; if that succeeds, it is stored. */
  ghost predicate PersistsAt(states: seq<State>, steps: seq<Step>, m: nat, run: nat)
    requires |states| == |steps| + 1
  {
    && m < |steps| && steps[m].Persist?
    && (steps[m].ok ==> steps[m].key in states[m + 1].store && states[m + 1].store[steps[m].key].run == run)
  }

  ghost predicate PersistedBefore(states: seq<State>, steps: seq<Step>, n: nat, run: nat)
    requires |states| == |steps| + 1
  {
    exists m: nat :: m < n && PersistsAt(states, steps, m, run)
  }

  predicate Successful(r: Response) {
    200 <= r.status < 400
  }

  predicate Succeeded(f: Flight) {
    f.phase.Finished? && f.phase.result.Made? && Successful(f.phase.result.response)
  }

  /** Successful responses that members of a flight may be told, or that are stored, have been handed to the store. */
  ghost predicate Handed(states: seq<State>, steps: seq<Step>, n: nat)
    requires |states| == |steps| + 1 && n < |states|
  {
    var s := states[n];
    && (forall key :: key in s.flights && Succeeded(s.flights[key]) ==>
          PersistedBefore(states, steps, n, s.flights[key].phase.result.response.run))
    && (forall key :: key in s.store ==> PersistedBefore(states, steps, n, s.store[key].run))
    && (forall rid :: rid in s.outcomes && s.outcomes[rid].Served? && Successful(s.outcomes[rid].response) ==>
          PersistedBefore(states, steps, n, s.outcomes[rid].response.run))
  }

  lemma PersistedLater(states: seq<State>, steps: seq<Step>, n: nat, run: nat)
    requires |states| == |steps| + 1 && PersistedBefore(states, steps, n, run)
    ensures PersistedBefore(states, steps, n + 1, run)
  {
  }

  lemma HandedNext(states: seq<State>, steps: seq<Step>, n: nat)
    requires Execution(states, steps) && n < |steps| && states[n].caching && Handed(states, steps, n)
    ensures Handed(states, steps, n + 1)
  {
    assert NextAt(states, steps, n);
    AlwaysInv(states, steps, n);
    var s, s', step := states[n], states[n + 1], steps[n];
    forall run | PersistedBefore(states, steps, n, run) ensures PersistedBefore(states, steps, n + 1, run) {
      PersistedLater(states, steps, n, run);
    }
    if step.Persist? {
      assert PhaseOk(s, step.key, s.flights[step.key]);
      assert PersistsAt(states, steps, n, s.flights[step.key].phase.response.run);
    }
    forall rid | rid in s'.outcomes && s'.outcomes[rid].Served? && Successful(s'.outcomes[rid].response)
      ensures PersistedBefore(states, steps, n + 1, s'.outcomes[rid].response.run)
    {
      AnswersFrom(s, step, rid);
    }
    forall key | key in s'.flights && Succeeded(s'.flights[key])
      ensures PersistedBefore(states, steps, n + 1, s'.flights[key].phase.result.response.run)
    {
      FinishedFrom(s, step, key);
    }
  }

  /** Where an answer comes from. */
  lemma AnswersFrom(s: State, step: Step, rid: nat)
    requires Enabled(s, step) && rid in Do(s, step).outcomes && Do(s, step).outcomes[rid].Served?
    ensures (rid in s.outcomes && s.outcomes[rid] == Do(s, step).outcomes[rid])
            || (step.End? && s.flights[step.key].phase.result == Made(Do(s, step).outcomes[rid].response))
  {
  }

  /** Where the result of a flight comes from, when it is a successful response and there is a cache. */
  lemma FinishedFrom(s: State, step: Step, key: CacheKey)
    requires Enabled(s, step) && s.caching && key in Do(s, step).flights
    requires Succeeded(Do(s, step).flights[key])
    ensures var r := Do(s, step).flights[key].phase.result.response;
            || (key in s.flights && s.flights[key].phase == Finished(Made(r)))
            || (key in s.store && s.store[key] == r)
            || (step.Persist? && step.key == key && s.flights[key].phase == Storing(r))
  {
  }

  lemma {:induction false} HandedRun(states: seq<State>, steps: seq<Step>, n: nat)
    requires Execution(states, steps) && n < |states| && states[0].caching
    ensures Handed(states, steps, n)
    decreases n
  {
    if n > 0 {
      HandedRun(states, steps, n - 1);
      TimePasses(states, steps, 0, n - 1);
      HandedNext(states, steps, n - 1);
    }
  }

  /** With a cache, a successful response is served only after it was handed to the store, and stored if that succeeds. */
  lemma SuccessIsStored(states: seq<State>, steps: seq<Step>, n: nat, rid: nat) returns (m: nat)
    requires Execution(states, steps) && n < |states| && states[0].caching
    requires rid in states[n].outcomes && states[n].outcomes[rid].Served? && Successful(states[n].outcomes[rid].response)
    ensures m < n && PersistsAt(states, steps, m, states[n].outcomes[rid].response.run)
  {
    HandedRun(states, steps, n);
    m :| m < n && PersistsAt(states, steps, m, states[n].outcomes[rid].response.run);
  }

  // ---------------------------------------------------------------- bytes that are no text

  lemma OneMore(states: seq<State>, steps: seq<Step>, step: Step, s: State, s': State) returns (states': seq<State>, steps': seq<Step>)
    requires Execution(states, steps) && states[|steps|] == s && Enabled(s, step) && Do(s, step) == s'
    ensures Execution(states', steps') && |steps'| == |steps| + 1 && states'[|steps'|] == s'
  {
    states', steps' := states + [s'], steps + [step];
    forall i | 0 <= i < |steps'| ensures NextAt(states', steps', i) {
      if i < |steps| { assert NextAt(states, steps, i); }
    }
  }

  /** Two requests with the same key in one flight, and what its leader's handler leaves when it writes nothing. */
  lemma TwoInFlight(one: Request, two: Request) returns (states: seq<State>, steps: seq<Step>)
    requires KeyOf(one) == KeyOf(two)
    ensures Execution(states, steps) && |steps| == 3
    ensures states[3] == State(false, [one, two], map[KeyOf(one) := Flight(0, {1}, Running(0), false)], map[], [Run(0, None)], map[], 0)
  {
    var key := KeyOf(one);
    var s0 := State(false, [], map[], map[], [], map[], 0);
    var s1 := s0.(requests := [one], flights := map[key := Flight(0, {}, Looking, false)]);
    var s2 := s1.(requests := [one, two], flights := map[key := Flight(0, {1}, Looking, false)]);
    var s3 := s2.(flights := map[key := Flight(0, {1}, Running(0), false)], runs := [Run(0, None)]);
    assert [one] + [two] == [one, two] && {} + {1} == {1};
    states, steps := OneMore([s0], [], Arrive(one), s0, s1);
    states, steps := OneMore(states, steps, Arrive(two), s1, s2);
    states, steps := OneMore(states, steps, LookUp(key), s2, s3);
  }

  /** In an execution of the protocol, `got` has been served, as request `rid`, the response of a handler run for
      `made`. */
  ghost predicate ServedFor(states: seq<State>, steps: seq<Step>, n: nat, rid: nat, made: Request, got: Request) {
    && Execution(states, steps) && n < |states|
    && var s := states[n];
    && rid < |s.requests| && s.requests[rid] == got && rid in s.outcomes && s.outcomes[rid].Served?
    && s.outcomes[rid].response.run < |s.runs|
    && var run := s.runs[s.outcomes[rid].response.run];
    && run.rid < |s.requests| && s.requests[run.rid] == made
  }

  /** Whatever has the key and fingerprint of a request is served its response when they meet in one flight. */
  lemma CollisionServed(one: Request, two: Request) returns (states: seq<State>, steps: seq<Step>)
    requires KeyOf(one) == KeyOf(two) && FingerprintOf(one) == FingerprintOf(two)
    ensures ServedFor(states, steps, 5, 1, one, two)
  {
    var r;
    states, steps := TwoInFlight(one, two);
    states, steps, r := BothServed(states, steps, one, two);
  }

  /** The response made for a request is served to equal requests only, in every execution of the protocol, if and only
      if the request is well encoded. */
  lemma OnlyEqualServedIff(made: Request)
    ensures WellEncoded(made) <==>
            forall states, steps, n, rid, got :: ServedFor(states, steps, n, rid, made, got) ==> got == made
  {
    if WellEncoded(made) {
      forall states, steps, n, rid, got | ServedFor(states, steps, n, rid, made, got) ensures got == made {
        var k := ServedTheRightResponse(states, steps, n, rid);
      }
    } else {
      var other := TwinRequest(made);
      var states, steps := CollisionServed(made, other);
      assert ServedFor(states, steps, 5, 1, made, other);
    }
  }

  /** A POST request with a key, as an authenticated client sends it. */
  function Post(body: Bytes): Request {
    var post, slash, a := [0x50, 0x4F, 0x53, 0x54], [0x2F], [0x61];
    Request(a, [], a, post, slash, a, [], [], [], body)
  }

  lemma BrokenBytes(b: Byte)
    requires 0xF5 <= b
    ensures Coerce([b]) == [Bad]
  {
    assert [b][1..] == [];
    assert Coerce([b][1..]) == [];
  }

  /** For example, a request with the body FE, made while one with the body FF is in flight under the same key, is served
      the other's response and not refused. */
  lemma BrokenBodiesCollide() returns (states: seq<State>, steps: seq<Step>)
    ensures ServedFor(states, steps, 5, 1, Post([0xFF]), Post([0xFE]))
  {
    BrokenBytes(0xFF);
    BrokenBytes(0xFE);
    states, steps := CollisionServed(Post([0xFF]), Post([0xFE]));
  }

  lemma BothServed(before: seq<State>, done: seq<Step>, one: Request, two: Request)
    returns (states: seq<State>, steps: seq<Step>, r: Response)
    requires KeyOf(one) == KeyOf(two) && FingerprintOf(one) == FingerprintOf(two)
    requires Execution(before, done) && |done| == 3
    requires before[3] == State(false, [one, two], map[KeyOf(one) := Flight(0, {1}, Running(0), false)], map[], [Run(0, None)], map[], 0)
    ensures Execution(states, steps) && |steps| == 5 && states[5].requests == [one, two]
    ensures 1 in states[5].outcomes && states[5].outcomes[1] == Served(r, true)
    ensures r.run < |states[5].runs| && states[5].runs[r.run].rid == 0
  {
    var key := KeyOf(one);
    r := Response(200, map[], [], FingerprintOf(one), DAY, 0);
    var s3 := before[3];
    var s4 := s3.(flights := map[key := Flight(0, {1}, Finished(Made(r)), false)], runs := [Run(0, Some(Made(r)))]);
    ReturnsNothing(s3, key, r, s4);
    states, steps := OneMore(before, done, Return(key, [], map[]), s3, s4);
    var s5 := Do(s4, End(key));
    states, steps := OneMore(states, steps, End(key), s4, s5);
    assert 1 in Members(s4.flights[key]);
  }

  lemma ReturnsNothing(s: State, key: CacheKey, r: Response, s': State)
    requires Enabled(s, Return(key, [], map[])) && !s.caching
    requires s.flights[key].phase.run == r.run
    requires r == Response(200, map[], [], FingerprintOf(s.requests[s.flights[key].leader]), s.now + DAY, r.run)
    requires s' == s.(flights := s.flights[key := s.flights[key].(phase := Finished(Made(r)))],
                      runs := s.runs[r.run := s.runs[r.run].(result := Some(Made(r)))])
    ensures Do(s, Return(key, [], map[])) == s'
  {
    var none: Headers := map[];
    assert none - {"Set-Cookie", "X-Request-Id"} == none;
  }
}
