/** The bounded, expiring store of per-owner runtime state. Times are nanoseconds. */
module RuntimeStates {
  import opened Collections
  import opened Options

  const TTL: int := 1800000000000
  const LIMIT: nat := 4096
  const PRUNE_INTERVAL: int := 60000000000
  const MAX_TOKEN: nat := 128

  type Props = string

  datatype Entry = Entry(owner: string, props: Props, expires: int)

  datatype Store = Store(entries: map<string, Entry>, order: seq<string>, nextPrune: Option<int>)

  const EMPTY: Store := Store(map[], [], None)

  // ---------------------------------------------------------------- specification of the operations

  /** The queue and map after expired tokens left from the front. */
  function Pruned(entries: map<string, Entry>, order: seq<string>, now: int): (map<string, Entry>, seq<string>)
    decreases order
  {
    if order == [] then (entries, order)
    else if order[0] !in entries then Pruned(entries, order[1..], now)
    else if now < entries[order[0]].expires then (entries, order)
    else Pruned(entries - {order[0]}, order[1..], now)
  }

  /** The queue and map after at most one live token left from the front. */
  function Discarded(entries: map<string, Entry>, order: seq<string>): (map<string, Entry>, seq<string>)
    decreases order
  {
    if order == [] then (entries, order)
    else if order[0] in entries then (entries - {order[0]}, order[1..])
    else Discarded(entries, order[1..])
  }

  /** The queue and map once there is room for one more, or the queue has run dry. */
  function Shrunk(entries: map<string, Entry>, order: seq<string>): (r: (map<string, Entry>, seq<string>))
    decreases |order|
  {
    if |entries| < LIMIT || order == [] then (entries, order)
    else
      DiscardedShorter(entries, order);
      Shrunk(Discarded(entries, order).0, Discarded(entries, order).1)
  }

  lemma DiscardedShorter(entries: map<string, Entry>, order: seq<string>)
    requires order != []
    ensures |Discarded(entries, order).1| < |order|
  {
    if order[0] !in entries && order[1..] != [] {
      DiscardedShorter(entries, order[1..]);
    }
  }

  predicate PruneDue(s: Store, now: int) {
    s.nextPrune.None? || s.nextPrune.value <= now
  }

  function AfterPrune(s: Store, now: int): Store {
    var (entries, order) := Pruned(s.entries, s.order, now);
    Store(entries, order, Some(now + PRUNE_INTERVAL))
  }

  function AfterPut(s: Store, token: string, owner: string, props: Props, now: int): Store {
    var s1 := if PruneDue(s, now) then AfterPrune(s, now) else s;
    var (entries, order) := Shrunk(s1.entries, s1.order);
    Store(entries[token := Entry(owner, props, now + TTL)], order + [token], s1.nextPrune)
  }

  function Read(s: Store, owner: string, token: string, now: int): Option<Props> {
    if |token| == 0 || |token| > MAX_TOKEN then None
    else if token in s.entries && s.entries[token].owner == owner && now < s.entries[token].expires
    then Some(s.entries[token].props)
    else None
  }

  /** A read drops the token when it has expired, whoever asks. */
  function AfterRead(s: Store, token: string, now: int): Store {
    if 0 < |token| <= MAX_TOKEN && token in s.entries && s.entries[token].expires <= now
    then s.(entries := s.entries - {token}) else s
  }

  // ---------------------------------------------------------------- the class

  class RuntimeStateStore {
    var entries: map<string, Entry>
    var order: seq<string>
    var nextPrune: Option<int>

    ghost function View(): Store
      reads this
    {
      Store(entries, order, nextPrune)
    }

    constructor ()
      ensures View() == EMPTY
    {
      entries, order, nextPrune := map[], [], None;
    }

    method DiscardOldest() returns (removed: bool)
      modifies this`entries, this`order
      ensures (entries, order) == Discarded(old(entries), old(order))
      ensures removed <==> entries != old(entries)
      ensures !removed ==> order == []
    {
      while |order| > 0
        invariant entries == old(entries)
        invariant Discarded(entries, order) == Discarded(old(entries), old(order))
      {
        var token := order[0];
        order := order[1..];
        if token in entries {
          entries := entries - {token};
          return true;
        }
      }
      return false;
    }

    method PruneExpired(now: int)
      modifies this
      ensures View() == AfterPrune(old(View()), now)
    {
      while |order| > 0
        invariant Pruned(entries, order, now) == Pruned(old(entries), old(order), now)
      {
        var token := order[0];
        if token !in entries {
          order := order[1..];
          continue;
        }
        if now < entries[token].expires {
          break;
        }
        entries := entries - {token};
        order := order[1..];
      }
      nextPrune := Some(now + PRUNE_INTERVAL);
    }

    /** `token` is the fresh random token. */
    method Put(token: string, owner: string, props: Props, now: int)
      modifies this
      ensures View() == AfterPut(old(View()), token, owner, props, now)
    {
      if nextPrune.None? || !(now < nextPrune.value) {
        PruneExpired(now);
      }
      ghost var s1 := View();
      var more := true;
      while more && |entries| >= LIMIT
        invariant nextPrune == s1.nextPrune
        invariant Shrunk(entries, order) == Shrunk(s1.entries, s1.order)
        invariant !more ==> order == []
        decreases |order|, more
      {
        if order != [] {
          DiscardedShorter(entries, order);
        }
        more := DiscardOldest();
      }
      entries := entries[token := Entry(owner, props, now + TTL)];
      order := order + [token];
    }

    method Get(owner: string, token: string, now: int) returns (props: Option<Props>)
      modifies this`entries
      ensures props == Read(old(View()), owner, token, now)
      ensures View() == AfterRead(old(View()), token, now)
    {
      if |token| == 0 || |token| > MAX_TOKEN {
        return None;
      }
      if token !in entries || entries[token].owner != owner || !(now < entries[token].expires) {
        if token in entries && !(now < entries[token].expires) {
          entries := entries - {token};
        }
        return None;
      }
      return Some(entries[token].props);
    }
  }

  // ---------------------------------------------------------------- runs

  datatype Operation =
    | Put(token: string, owner: string, props: Props, now: int)
    | Get(owner: string, token: string, now: int)

  datatype Record = Record(token: string, owner: string, props: Props, time: int)

  /** A store together with everything ever put into it and the latest time seen. */
  datatype History = History(log: seq<Record>, store: Store, clock: int)

  function Step(h: History, op: Operation): History {
    match op
    case Put(token, owner, props, now) =>
      History(h.log + [Record(token, owner, props, now)], AfterPut(h.store, token, owner, props, now), now)
    case Get(owner, token, now) => History(h.log, AfterRead(h.store, token, now), now)
  }

  /** Tokens are fresh and well formed, and the clock does not go back. */
  ghost predicate Legal(h: History, op: Operation) {
    && h.clock <= op.now
    && (op.Put? ==> 0 < |op.token| <= MAX_TOKEN && forall i :: 0 <= i < |h.log| ==> h.log[i].token != op.token)
  }

  function Execute(start: int, ops: seq<Operation>): History {
    if ops == [] then History([], EMPTY, start)
    else Step(Execute(start, ops[..|ops| - 1]), ops[|ops| - 1])
  }

  /** Every operation is legal where it happens. */
  ghost predicate LegalRun(start: int, ops: seq<Operation>) {
    ops == []
    || (LegalRun(start, ops[..|ops| - 1]) && Legal(Execute(start, ops[..|ops| - 1]), ops[|ops| - 1]))
  }

  // ---------------------------------------------------------------- the invariant

  ghost predicate Distinct(log: seq<Record>) {
    forall i, j :: 0 <= i < j < |log| ==> log[i].token != log[j].token
  }

  ghost predicate LogSound(log: seq<Record>, clock: int) {
    && Distinct(log)
    && (forall i, j :: 0 <= i < j < |log| ==> log[i].time <= log[j].time)
    && (forall i :: 0 <= i < |log| ==> log[i].time <= clock && 0 < |log[i].token| <= MAX_TOKEN)
  }

  ghost predicate Expired(r: Record, clock: int) {
    r.time + TTL <= clock
  }

  function Newer(log: seq<Record>, i: int): int {
    |log| - 1 - i
  }

  /** `order` lists the records of the log from `d` on. */
  ghost predicate Suffix(log: seq<Record>, order: seq<string>, d: int) {
    && 0 <= d && d + |order| == |log|
    && forall j :: d <= j < |log| ==> order[j - d] == log[j].token
  }

  ghost predicate LoggedFrom(log: seq<Record>, d: int, t: string) {
    exists j :: 0 <= d <= j < |log| && log[j].token == t
  }

  ghost predicate Stored(r: Record, entries: map<string, Entry>, clock: int) {
    if r.token in entries then entries[r.token] == Entry(r.owner, r.props, r.time + TTL) else Expired(r, clock)
  }

  /** The map holds exactly the queued records, except for some that have expired. */
  ghost predicate Holds(log: seq<Record>, entries: map<string, Entry>, order: seq<string>, clock: int) {
    var d := |log| - |order|;
    && Suffix(log, order, d)
    && (forall t {:trigger LoggedFrom(log, d, t)} :: t in entries ==> LoggedFrom(log, d, t))
    && (forall j :: d <= j < |log| ==> Stored(log[j], entries, clock))
  }

  /** What has left the queue had expired or was at least `extra` short of LIMIT newer puts. */
  ghost predicate LeftRightly(log: seq<Record>, order: seq<string>, clock: int, extra: nat) {
    forall i :: 0 <= i < |log| - |order| ==> Expired(log[i], clock) || Newer(log, i) + extra >= LIMIT
  }

  ghost predicate Inv(h: History) {
    && LogSound(h.log, h.clock)
    && Holds(h.log, h.store.entries, h.store.order, h.clock)
    && LeftRightly(h.log, h.store.order, h.clock, 0)
    && |h.store.entries| <= LIMIT
  }

  lemma DistinctTokens(log: seq<Record>, lo: nat) returns (s: set<string>)
    requires lo <= |log|
    requires Distinct(log)
    ensures s == set i | lo <= i < |log| :: log[i].token
    ensures |s| == |log| - lo
    decreases |log| - lo
  {
    if lo == |log| {
      s := {};
    } else {
      var rest := DistinctTokens(log, lo + 1);
      s := {log[lo].token} + rest;
    }
  }

  /** A queue cannot hold more tokens than log records. */
  lemma QueueBound(log: seq<Record>, entries: map<string, Entry>, order: seq<string>, clock: int)
    requires LogSound(log, clock) && Holds(log, entries, order, clock)
    ensures |entries| <= |order|
  {
    var s := DistinctTokens(log, |log| - |order|);
    forall t | t in entries ensures t in s {
      assert LoggedFrom(log, |log| - |order|, t);
    }
    SubsetSize(entries.Keys, s);
  }

  lemma PopFront(log: seq<Record>, entries: map<string, Entry>, order: seq<string>, clock: int)
    requires Distinct(log) && Holds(log, entries, order, clock) && order != []
    ensures var r := log[|log| - |order|];
            && order[0] == r.token
            && (order[0] !in entries ==> Expired(r, clock))
            && (order[0] in entries ==> entries[order[0]].expires == r.time + TTL)
    ensures Holds(log, entries - {order[0]}, order[1..], clock)
  {
    var d := |log| - |order|;
    assert order[0] == log[d].token;
    assert Stored(log[d], entries, clock);
    PopHolds(log, entries, d, clock);
    PopSuffix(log, order, d);
  }

  lemma PopSuffix(log: seq<Record>, order: seq<string>, d: int)
    requires Suffix(log, order, d) && order != []
    ensures Suffix(log, order[1..], d + 1)
  {
  }

  lemma PopHolds(log: seq<Record>, entries: map<string, Entry>, d: nat, clock: int)
    requires d < |log| && forall j :: d < j < |log| ==> log[j].token != log[d].token
    requires forall t {:trigger LoggedFrom(log, d, t)} :: t in entries ==> LoggedFrom(log, d, t)
    requires forall j :: d <= j < |log| ==> Stored(log[j], entries, clock)
    ensures forall t {:trigger LoggedFrom(log, d + 1, t)} :: t in entries - {log[d].token} ==> LoggedFrom(log, d + 1, t)
    ensures forall j :: d + 1 <= j < |log| ==> Stored(log[j], entries - {log[d].token}, clock)
  {
    forall t | t in entries - {log[d].token} ensures LoggedFrom(log, d + 1, t) {
      assert LoggedFrom(log, d, t);
    }
  }

  lemma {:induction false} PrunedSound(log: seq<Record>, entries: map<string, Entry>, order: seq<string>, clock: int)
    requires LogSound(log, clock) && Holds(log, entries, order, clock) && LeftRightly(log, order, clock, 0)
    ensures var (e, o) := Pruned(entries, order, clock);
            && Holds(log, e, o, clock) && LeftRightly(log, o, clock, 0) && |e| <= |entries|
            && (o != [] ==> o[0] in e && clock < e[o[0]].expires)
    decreases order
  {
    if order != [] && !(order[0] in entries && clock < entries[order[0]].expires) {
      PopFront(log, entries, order, clock);
      Removed(entries, order[0]);
      PrunedSound(log, entries - {order[0]}, order[1..], clock);
    }
  }

  lemma {:induction false} DiscardedSound(log: seq<Record>, entries: map<string, Entry>, order: seq<string>, clock: int)
    requires LogSound(log, clock) && Holds(log, entries, order, clock) && LeftRightly(log, order, clock, 1)
    requires |entries| >= LIMIT
    ensures var (e, o) := Discarded(entries, order);
            Holds(log, e, o, clock) && LeftRightly(log, o, clock, 1) && |e| == |entries| - 1
    decreases order
  {
    QueueBound(log, entries, order, clock);
    PopFront(log, entries, order, clock);
    Removed(entries, order[0]);
    if order[0] !in entries {
      DiscardedSound(log, entries, order[1..], clock);
    }
  }

  lemma ShrunkSound(log: seq<Record>, entries: map<string, Entry>, order: seq<string>, clock: int)
    requires LogSound(log, clock) && Holds(log, entries, order, clock) && LeftRightly(log, order, clock, 1)
    requires |entries| <= LIMIT
    ensures var (e, o) := Shrunk(entries, order);
            Holds(log, e, o, clock) && LeftRightly(log, o, clock, 1) && |e| < LIMIT
  {
    QueueBound(log, entries, order, clock);
    if |entries| == LIMIT {
      DiscardedSound(log, entries, order, clock);
      DiscardedShorter(entries, order);
      assert |Discarded(entries, order).0| < LIMIT;
    }
  }

  lemma Later(h: History, now: int)
    requires Inv(h) && h.clock <= now
    ensures Inv(h.(clock := now))
  {
    var d := |h.log| - |h.store.order|;
    forall j | d <= j < |h.log| ensures Stored(h.log[j], h.store.entries, now) {
      assert Stored(h.log[j], h.store.entries, h.clock);
    }
  }

  lemma StepSound(h: History, op: Operation)
    requires Inv(h) && Legal(h, op)
    ensures Inv(Step(h, op))
  {
    Later(h, op.now);
    match op
    case Put(token, owner, props, now) => PutSound(h.(clock := now), token, owner, props);
    case Get(owner, token, now) => ReadSound(h.(clock := now), token);
  }

  lemma PutSound(h: History, token: string, owner: string, props: Props)
    requires Inv(h) && Legal(h, Put(token, owner, props, h.clock))
    ensures Inv(Step(h, Put(token, owner, props, h.clock)))
  {
    var s1 := if PruneDue(h.store, h.clock) then AfterPrune(h.store, h.clock) else h.store;
    assert Holds(h.log, s1.entries, s1.order, h.clock) && LeftRightly(h.log, s1.order, h.clock, 0) && |s1.entries| <= LIMIT by {
      PrunedSound(h.log, h.store.entries, h.store.order, h.clock);
    }
    ShrunkSound(h.log, s1.entries, s1.order, h.clock);
    var (entries, order) := Shrunk(s1.entries, s1.order);
    var r := Record(token, owner, props, h.clock);
    Appended(h.log, entries, order, r);
    LogAppended(h.log, order, r);
  }

  lemma ReadSound(h: History, token: string)
    requires Inv(h)
    ensures Inv(h.(store := AfterRead(h.store, token, h.clock)))
  {
    var entries := h.store.entries;
    var d := |h.log| - |h.store.order|;
    assert (entries - {token}).Keys == entries.Keys - {token};
    forall j | d <= j < |h.log| ensures Stored(h.log[j], AfterRead(h.store, token, h.clock).entries, h.clock) {
      assert Stored(h.log[j], entries, h.clock);
    }
  }

  lemma Appended(log: seq<Record>, entries: map<string, Entry>, order: seq<string>, r: Record)
    requires forall i :: 0 <= i < |log| ==> log[i].token != r.token
    requires Holds(log, entries, order, r.time) && |entries| < LIMIT
    ensures var entries' := entries[r.token := Entry(r.owner, r.props, r.time + TTL)];
            Holds(log + [r], entries', order + [r.token], r.time) && |entries'| <= LIMIT
  {
    var entries' := entries[r.token := Entry(r.owner, r.props, r.time + TTL)];
    assert entries'.Keys == entries.Keys + {r.token};
    var d := |log| - |order|;
    AppendHolds(log, entries, d, r);
    AppendSuffix(log, order, d, r);
  }

  lemma AppendSuffix(log: seq<Record>, order: seq<string>, d: int, r: Record)
    requires Suffix(log, order, d)
    ensures Suffix(log + [r], order + [r.token], d)
  {
  }

  lemma AppendHolds(log: seq<Record>, entries: map<string, Entry>, d: nat, r: Record)
    requires d <= |log| && forall i :: 0 <= i < |log| ==> log[i].token != r.token
    requires forall t {:trigger LoggedFrom(log, d, t)} :: t in entries ==> LoggedFrom(log, d, t)
    requires forall j :: d <= j < |log| ==> Stored(log[j], entries, r.time)
    ensures var entries' := entries[r.token := Entry(r.owner, r.props, r.time + TTL)];
            && (forall t {:trigger LoggedFrom(log + [r], d, t)} :: t in entries' ==> LoggedFrom(log + [r], d, t))
            && (forall j :: d <= j < |log| + 1 ==> Stored((log + [r])[j], entries', r.time))
  {
    var entries' := entries[r.token := Entry(r.owner, r.props, r.time + TTL)];
    forall t | t in entries' ensures LoggedFrom(log + [r], d, t) {
      if t != r.token {
        assert LoggedFrom(log, d, t);
        var j :| d <= j < |log| && log[j].token == t;
        assert (log + [r])[j].token == t;
      } else {
        assert (log + [r])[|log|].token == t;
      }
    }
    forall j | d <= j < |log| + 1 ensures Stored((log + [r])[j], entries', r.time) {
      if j < |log| {
        assert Stored(log[j], entries, r.time);
      }
    }
  }

  lemma LogAppended(log: seq<Record>, order: seq<string>, r: Record)
    requires LogSound(log, r.time) && 0 < |r.token| <= MAX_TOKEN && forall i :: 0 <= i < |log| ==> log[i].token != r.token
    requires LeftRightly(log, order, r.time, 1)
    ensures LogSound(log + [r], r.time) && LeftRightly(log + [r], order + [r.token], r.time, 0)
  {
  }

  lemma {:induction false} RunSound(start: int, ops: seq<Operation>)
    requires LegalRun(start, ops)
    ensures Inv(Execute(start, ops))
  {
    if ops != [] {
      var front := ops[..|ops| - 1];
      RunSound(start, front);
      StepSound(Execute(start, front), ops[|ops| - 1]);
    }
  }

  // ---------------------------------------------------------------- main results

  /** Retention, exactly. After any legal run a read returns `props` if and only if the token was put with them by
      this owner less than 30 minutes ago and fewer than 4096 puts came after it. */
  lemma Retention(start: int, ops: seq<Operation>, owner: string, token: string, now: int, props: Props)
    requires LegalRun(start, ops) && Execute(start, ops).clock <= now
    ensures var h := Execute(start, ops);
            Read(h.store, owner, token, now) == Some(props) <==>
            exists i :: 0 <= i < |h.log| && h.log[i].token == token && h.log[i].owner == owner && h.log[i].props == props
              && now < h.log[i].time + TTL && Newer(h.log, i) < LIMIT
  {
    RunSound(start, ops);
    ReadExactly(Execute(start, ops), owner, token, now, props);
  }

  lemma ReadExactly(h: History, owner: string, token: string, now: int, props: Props)
    requires Inv(h) && h.clock <= now
    ensures Read(h.store, owner, token, now) == Some(props) <==>
            exists i :: 0 <= i < |h.log| && h.log[i].token == token && h.log[i].owner == owner && h.log[i].props == props
              && now < h.log[i].time + TTL && Newer(h.log, i) < LIMIT
  {
    var s := h.store;
    var d := |h.log| - |s.order|;
    if Read(s, owner, token, now) == Some(props) {
      assert LoggedFrom(h.log, d, token);
      var n :| d <= n < |h.log| && h.log[n].token == token;
      assert Stored(h.log[n], s.entries, h.clock);
      FewNewer(h, n, now);
    }
    forall i | 0 <= i < |h.log| && h.log[i].token == token && now < h.log[i].time + TTL && Newer(h.log, i) < LIMIT
      ensures token in s.entries && s.entries[token] == Entry(h.log[i].owner, h.log[i].props, h.log[i].time + TTL)
    {
      assert i >= d;
      assert Stored(h.log[i], s.entries, h.clock);
    }
  }

  /** A live token has fewer than LIMIT newer ones: they are all still in the map. */
  lemma FewNewer(h: History, i: nat, now: int)
    requires Inv(h) && h.clock <= now && |h.log| - |h.store.order| <= i < |h.log| && now < h.log[i].time + TTL
    ensures Newer(h.log, i) < LIMIT
  {
    var s := DistinctTokens(h.log, i);
    assert s <= h.store.entries.Keys by {
      forall j | i <= j < |h.log| ensures h.log[j].token in h.store.entries {
        assert Stored(h.log[j], h.store.entries, h.clock);
      }
    }
    SubsetSize(s, h.store.entries.Keys);
  }

  /** The store never exceeds its limit. */
  lemma Bounded(start: int, ops: seq<Operation>)
    requires LegalRun(start, ops)
    ensures |Execute(start, ops).store.entries| <= LIMIT
  {
    RunSound(start, ops);
  }

  /** A prune leaves no expired token: map and queue hold the same tokens, all of them live. */
  lemma PruneIsComplete(start: int, ops: seq<Operation>, now: int)
    requires LegalRun(start, ops) && Execute(start, ops).clock <= now
    ensures var s := AfterPrune(Execute(start, ops).store, now);
            && (forall t :: t in s.entries <==> t in s.order)
            && (forall t :: t in s.entries ==> now < s.entries[t].expires)
  {
    RunSound(start, ops);
    var h := Execute(start, ops);
    Later(h, now);
    PrunedSound(h.log, h.store.entries, h.store.order, now);
    var s := AfterPrune(h.store, now);
    AllLive(h.log, s.entries, s.order, now);
  }

  lemma AllLive(log: seq<Record>, entries: map<string, Entry>, order: seq<string>, now: int)
    requires LogSound(log, now) && Holds(log, entries, order, now)
    requires order != [] ==> order[0] in entries && now < entries[order[0]].expires
    ensures forall t :: t in entries <==> t in order
    ensures forall t :: t in entries ==> now < entries[t].expires
  {
    var d := |log| - |order|;
    forall t | t in entries || t in order
      ensures t in entries && t in order && now < entries[t].expires
    {
      if t in entries {
        assert LoggedFrom(log, d, t);
      }
      var j :| d <= j < |log| && order[j - d] == log[j].token == t by {
        if t in entries {
          var j :| d <= j < |log| && log[j].token == t;
        } else {
          var n :| 0 <= n < |order| && order[n] == t;
          assert log[d + n].token == t;
        }
      }
      assert order[0] == log[d].token;
      assert Stored(log[d], entries, now) && Stored(log[j], entries, now);
    }
  }

  // ---------------------------------------------------------------- how long expired state stays

  lemma {:induction false} DiscardedKeeps(entries: map<string, Entry>, order: seq<string>)
    ensures forall t :: t in Discarded(entries, order).0 ==> t in entries && Discarded(entries, order).0[t] == entries[t]
    decreases order
  {
    if order != [] && order[0] !in entries { DiscardedKeeps(entries, order[1..]); }
  }

  lemma {:induction false} ShrunkKeeps(entries: map<string, Entry>, order: seq<string>)
    ensures forall t :: t in Shrunk(entries, order).0 ==> t in entries && Shrunk(entries, order).0[t] == entries[t]
    decreases |order|
  {
    if |entries| >= LIMIT && order != [] {
      DiscardedShorter(entries, order);
      DiscardedKeeps(entries, order);
      ShrunkKeeps(Discarded(entries, order).0, Discarded(entries, order).1);
    }
  }

  /** Whatever the store holds was live at the last prune. */
  ghost predicate Swept(h: History) {
    match h.store.nextPrune
    case None => h.store.entries == map[]
    case Some(next) => next <= h.clock + PRUNE_INTERVAL && forall t :: t in h.store.entries ==> next - PRUNE_INTERVAL < h.store.entries[t].expires
  }

  lemma {:induction false} SweptRun(start: int, ops: seq<Operation>)
    requires LegalRun(start, ops)
    ensures Swept(Execute(start, ops))
    decreases |ops|
  {
    if ops != [] {
      var front, op := ops[..|ops| - 1], ops[|ops| - 1];
      SweptRun(start, front);
      if op.Put? {
        var s := Execute(start, front).store;
        PruneIsComplete(start, front, op.now);
        var s1 := if PruneDue(s, op.now) then AfterPrune(s, op.now) else s;
        ShrunkKeeps(s1.entries, s1.order);
      }
    }
  }

  /** After a put, no state that the store still holds expired a minute ago or earlier. */
  lemma NothingLingers(start: int, ops: seq<Operation>)
    requires LegalRun(start, ops) && ops != [] && ops[|ops| - 1].Put?
    ensures var h := Execute(start, ops);
            forall t :: t in h.store.entries ==> h.clock < h.store.entries[t].expires + PRUNE_INTERVAL
  {
    SweptRun(start, ops);
  }
}
