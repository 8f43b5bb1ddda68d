/** One response, shared by a handler and its timeout. */
module TimeoutWriters {
  import opened Options
  import opened Utf8

  type Headers = map<string, seq<string>>

  /** What the client's writer receives; the handler's calls come with the headers at that moment. */
  datatype Event =
    | Informational(code: int, headers: Headers)
    | Status(code: int, headers: Headers)
    | Body(bytes: Bytes, headers: Headers)
    | Flushed(headers: Headers)
    | TimeoutPage(code: int)

  /** The handler's calls, and the middleware's timeout; each holds the writer's lock, so a run is a sequence of them. */
  datatype Call =
    | SetHeader(name: string, values: seq<string>)
    | WriteHeader(code: int)
    | Write(bytes: Bytes)
    | Flush
    | TimeOut(cancelled: bool)

  datatype Writer = Writer(headers: Headers, timedOut: bool, wroteHeader: bool, code: int, sent: seq<Event>)

  const GATEWAY_TIMEOUT := 504
  const CLIENT_CLOSED := 499

  function After(w: Writer, call: Call): Writer {
    match call
    case SetHeader(name, values) => w.(headers := w.headers[name := values])
    case WriteHeader(code) =>
      if 100 <= code < 200 then
        if w.timedOut then w else w.(sent := w.sent + [Informational(code, w.headers)])
      else if w.timedOut || w.wroteHeader then w
      else w.(wroteHeader := true, code := code, sent := w.sent + [Status(code, w.headers)])
    case Write(bytes) => if w.timedOut then w else w.(wroteHeader := true, sent := w.sent + [Body(bytes, w.headers)])
    case Flush => if w.timedOut then w else w.(wroteHeader := true, sent := w.sent + [Flushed(w.headers)])
    case TimeOut(cancelled) =>
      var w' := w.(timedOut := true);
      if w.wroteHeader then w' else w'.(sent := w.sent + [TimeoutPage(if cancelled then CLIENT_CLOSED else GATEWAY_TIMEOUT)])
  }

  function AfterAll(w: Writer, calls: seq<Call>): Writer {
    if calls == [] then w else After(AfterAll(w, calls[..|calls| - 1]), calls[|calls| - 1])
  }

  function Start(headers: Headers): Writer {
    Writer(headers, false, false, 0, [])
  }

  class TimeoutWriter {
    var header: Headers
    var timedOut: bool
    var wroteHeader: bool
    var code: int
    /** The client's writer: its headers and what has gone out. */
    var clientHeader: Headers
    var sent: seq<Event>

    ghost function Value(): Writer
      reads this
    {
      Writer(header, timedOut, wroteHeader, code, sent)
    }

    constructor (client: Headers)
      ensures Value() == Start(client)
    {
      header, clientHeader := client, client;
      timedOut, wroteHeader, code, sent := false, false, 0, [];
    }

    method SyncHeader()
      modifies this`clientHeader
      ensures clientHeader == header
    {
      clientHeader := map[];
      var names := header.Keys;
      while names != {}
        invariant names <= header.Keys
        invariant clientHeader.Keys == header.Keys - names
        invariant forall name :: name in clientHeader ==> clientHeader[name] == header[name]
      {
        var name :| name in names;
        clientHeader := clientHeader[name := header[name]];
        names := names - {name};
      }
    }

    method SetHeader(name: string, values: seq<string>)
      modifies this
      ensures Value() == After(old(Value()), Call.SetHeader(name, values))
    {
      header := header[name := values];
    }

    method Write(p: Bytes) returns (n: nat, failed: bool)
      modifies this
      ensures Value() == After(old(Value()), Call.Write(p))
      ensures failed == timedOut && n == if failed then 0 else |p|
    {
      if timedOut { return 0, true; }
      SyncHeader();
      wroteHeader := true;
      sent := sent + [Body(p, clientHeader)];
      return |p|, false;
    }

    method WriteHeader(statusCode: int)
      modifies this
      ensures Value() == After(old(Value()), Call.WriteHeader(statusCode))
    {
      if 100 <= statusCode < 200 {
        if timedOut { return; }
        SyncHeader();
        sent := sent + [Informational(statusCode, clientHeader)];
        return;
      }
      if timedOut || wroteHeader { return; }
      wroteHeader := true;
      code := statusCode;
      SyncHeader();
      sent := sent + [Status(statusCode, clientHeader)];
    }

    method Flush()
      modifies this
      ensures Value() == After(old(Value()), Call.Flush)
    {
      if timedOut { return; }
      SyncHeader();
      wroteHeader := true;
      sent := sent + [Flushed(clientHeader)];
    }

    /** The middleware's branch for an ended context. */
    method TimeOut(cancelled: bool)
      modifies this
      ensures Value() == After(old(Value()), Call.TimeOut(cancelled))
    {
      timedOut := true;
      if !wroteHeader {
        var status := GATEWAY_TIMEOUT;
        if cancelled { status := CLIENT_CLOSED; }
        sent := sent + [TimeoutPage(status)];
      }
    }
  }

  // ---------------------------------------------------------------- runs

  /** The event starts the final response. */
  predicate Commits(e: Event) {
    e.Status? || e.Body? || e.Flushed?
  }

  predicate Committing(call: Call) {
    call.Write? || call.Flush? || (call.WriteHeader? && !(100 <= call.code < 200))
  }

  predicate FromHandler(calls: seq<Call>) {
    forall i :: 0 <= i < |calls| ==> !calls[i].TimeOut?
  }

  lemma {:induction false} AfterAllConcat(w: Writer, a: seq<Call>, b: seq<Call>)
    ensures AfterAll(w, a + b) == AfterAll(AfterAll(w, a), b)
    decreases |b|
  {
    if b == [] {
      assert a + b == a;
    } else {
      assert (a + b)[..|a + b| - 1] == a + b[..|b| - 1];
      AfterAllConcat(w, a, b[..|b| - 1]);
    }
  }

  /** After the timeout no call of the handler reaches the client, and no header it sets. */
  lemma {:induction false} SilentAfterTimeout(w: Writer, calls: seq<Call>)
    requires w.timedOut && FromHandler(calls)
    ensures AfterAll(w, calls).sent == w.sent && AfterAll(w, calls).timedOut
    decreases |calls|
  {
    if calls != [] {
      SilentAfterTimeout(w, calls[..|calls| - 1]);
    }
  }

  /** While the handler is on its own: what goes out, and whether the response has been started. */
  lemma {:induction false} HandlerAlone(headers: Headers, calls: seq<Call>)
    requires FromHandler(calls)
    ensures var w := AfterAll(Start(headers), calls);
            && !w.timedOut
            && (w.wroteHeader <==> exists i :: 0 <= i < |calls| && Committing(calls[i]))
            && (forall e :: e in w.sent ==> !e.TimeoutPage?)
            && (w.wroteHeader <==> exists e :: e in w.sent && Commits(e))
    decreases |calls|
  {
    if calls != [] {
      var before := calls[..|calls| - 1];
      HandlerAlone(headers, before);
      var v, w := AfterAll(Start(headers), before), AfterAll(Start(headers), calls);
      assert forall i :: 0 <= i < |before| ==> calls[i] == before[i];
      assert forall e :: e in v.sent ==> e in w.sent;
      if Committing(calls[|before|]) && !v.wroteHeader {
        assert w.sent[|w.sent| - 1] in w.sent && Commits(w.sent[|w.sent| - 1]);
      }
    }
  }

  /** With a timeout anywhere in the run: if the handler had started its response the client gets what went out before,
      otherwise that and the page; either way nothing later. */
  lemma PageOrResponse(headers: Headers, before: seq<Call>, cancelled: bool, after: seq<Call>)
    requires FromHandler(before) && FromHandler(after)
    ensures var sent := AfterAll(Start(headers), before).sent;
            AfterAll(Start(headers), before + [TimeOut(cancelled)] + after).sent
            == if exists i :: 0 <= i < |before| && Committing(before[i]) then sent
               else sent + [TimeoutPage(if cancelled then CLIENT_CLOSED else GATEWAY_TIMEOUT)]
    ensures forall e :: e in AfterAll(Start(headers), before).sent ==> !e.TimeoutPage?
  {
    var timeout := [TimeOut(cancelled)];
    HandlerAlone(headers, before);
    AfterAllConcat(Start(headers), before + timeout, after);
    assert (before + timeout)[..|before + timeout| - 1] == before;
    SilentAfterTimeout(AfterAll(Start(headers), before + timeout), after);
  }

  predicate NoneCommits(sent: seq<Event>) {
    forall i :: 0 <= i < |sent| ==> !Commits(sent[i])
  }

  /** No final status behind an event that has started the response. */
  predicate OneStatus(sent: seq<Event>) {
    forall i, j :: 0 <= i < j < |sent| && Commits(sent[i]) ==> !sent[j].Status?
  }

  lemma OneEventMore(sent: seq<Event>, e: Event)
    requires OneStatus(sent) && (e.Status? ==> NoneCommits(sent))
    ensures OneStatus(sent + [e])
    ensures NoneCommits(sent) && !Commits(e) ==> NoneCommits(sent + [e])
  {
  }

  /** What a call sends: nothing, or one event that is a final status only when the response has not been started. */
  lemma CallSends(w: Writer, call: Call) returns (e: Event)
    ensures var w' := After(w, call);
            && (w'.sent == w.sent || w'.sent == w.sent + [e])
            && (e.Status? ==> !w.wroteHeader)
            && (!w'.wroteHeader ==> !w.wroteHeader && (w'.sent == w.sent || !Commits(e)))
  {
    var w' := After(w, call);
    e := if |w'.sent| > |w.sent| then w'.sent[|w.sent|] else TimeoutPage(0);
  }

  /** At most one final status goes out, and none behind a body or a flush, whatever the handler calls and whenever it
      times out. */
  lemma {:induction false} OneFinalStatus(headers: Headers, calls: seq<Call>)
    ensures OneStatus(AfterAll(Start(headers), calls).sent)
    ensures !AfterAll(Start(headers), calls).wroteHeader ==> NoneCommits(AfterAll(Start(headers), calls).sent)
    decreases |calls|
  {
    if calls != [] {
      var before := calls[..|calls| - 1];
      OneFinalStatus(headers, before);
      var v := AfterAll(Start(headers), before);
      var e := CallSends(v, calls[|before|]);
      if After(v, calls[|before|]).sent != v.sent {
        OneEventMore(v.sent, e);
      }
    }
  }

  function BodyOf(events: seq<Event>): Bytes {
    if events == [] then []
    else
      var e := events[|events| - 1];
      BodyOf(events[..|events| - 1]) + if e.Body? then e.bytes else []
  }

  function WrittenBy(calls: seq<Call>): Bytes {
    if calls == [] then []
    else
      var call := calls[|calls| - 1];
      WrittenBy(calls[..|calls| - 1]) + if call.Write? then call.bytes else []
  }

  lemma BodyOfOneMore(sent: seq<Event>, e: Event)
    ensures BodyOf(sent + [e]) == BodyOf(sent) + if e.Body? then e.bytes else []
  {
    assert (sent + [e])[..|sent|] == sent;
  }

  /** A call of a handler that has not timed out sends its bytes and no others. */
  lemma CallBody(w: Writer, call: Call)
    requires !w.timedOut && !call.TimeOut?
    ensures BodyOf(After(w, call).sent) == BodyOf(w.sent) + if call.Write? then call.bytes else []
  {
    var sent := After(w, call).sent;
    if |sent| > |w.sent| {
      BodyOfOneMore(w.sent, sent[|w.sent|]);
      assert sent == w.sent + [sent[|w.sent|]];
    }
  }

  /** Without a timeout every byte the handler writes goes out, in order. */
  lemma {:induction false} EveryByte(headers: Headers, calls: seq<Call>)
    requires FromHandler(calls)
    ensures BodyOf(AfterAll(Start(headers), calls).sent) == WrittenBy(calls)
    decreases |calls|
  {
    if calls != [] {
      var before := calls[..|calls| - 1];
      EveryByte(headers, before);
      HandlerAlone(headers, before);
      CallBody(AfterAll(Start(headers), before), calls[|before|]);
    }
  }

  // ---------------------------------------------------------------- the response, call by call

  /** The values the handler gave a header last. */
  function LastSet(calls: seq<Call>, name: string): Option<seq<string>> {
    if calls == [] then None
    else
      var call := calls[|calls| - 1];
      if call.SetHeader? && call.name == name then Some(call.values) else LastSet(calls[..|calls| - 1], name)
  }

  /** The headers are those the client's writer had, with what the handler has set since. */
  ghost predicate HeadersAt(h: Headers, headers: Headers, calls: seq<Call>) {
    forall name ::
      && (name in h <==> LastSet(calls, name).Some? || name in headers)
      && (name in h ==> h[name] == if LastSet(calls, name).Some? then LastSet(calls, name).value else headers[name])
  }

  /** The call sends something: a final status only if no call before it has started the response. */
  predicate Sends(calls: seq<Call>, i: nat)
    requires i < |calls|
  {
    match calls[i]
    case SetHeader(_, _) => false
    case WriteHeader(code) => 100 <= code < 200 || forall j :: 0 <= j < i ==> !Committing(calls[j])
    case Write(_) => true
    case Flush => true
    case TimeOut(_) => false
  }

  /** What it sends. */
  ghost predicate SentBy(e: Event, headers: Headers, calls: seq<Call>, i: nat)
    requires i < |calls|
  {
    match calls[i]
    case WriteHeader(code) =>
      if 100 <= code < 200 then e.Informational? && e.code == code && HeadersAt(e.headers, headers, calls[..i])
      else e.Status? && e.code == code && HeadersAt(e.headers, headers, calls[..i])
    case Write(bytes) => e.Body? && e.bytes == bytes && HeadersAt(e.headers, headers, calls[..i])
    case Flush => e.Flushed? && HeadersAt(e.headers, headers, calls[..i])
    case _ => false
  }

  lemma {:induction false} HeadersOf(headers: Headers, calls: seq<Call>)
    requires FromHandler(calls)
    ensures HeadersAt(AfterAll(Start(headers), calls).headers, headers, calls)
    decreases |calls|
  {
    if calls != [] {
      HeadersOf(headers, calls[..|calls| - 1]);
    }
  }

  /** The client's events are those of the calls `from`. */
  ghost predicate Follows(sent: seq<Event>, headers: Headers, calls: seq<Call>, from: seq<nat>) {
    && |from| == |sent|
    && (forall k, l :: 0 <= k < l < |from| ==> from[k] < from[l])
    && (forall k :: 0 <= k < |from| ==> from[k] < |calls| && SentBy(sent[k], headers, calls, from[k]))
    && (forall i :: 0 <= i < |calls| ==> (i in from <==> Sends(calls, i)))
  }

  lemma SamePlace(e: Event, headers: Headers, calls: seq<Call>, call: Call, i: nat)
    requires i < |calls|
    ensures SentBy(e, headers, calls + [call], i) <==> SentBy(e, headers, calls, i)
    ensures Sends(calls + [call], i) <==> Sends(calls, i)
  {
    assert (calls + [call])[..i] == calls[..i] && forall j :: 0 <= j <= i ==> (calls + [call])[j] == calls[j];
  }

  lemma FollowsLonger(sent: seq<Event>, headers: Headers, calls: seq<Call>, from: seq<nat>, call: Call)
    requires Follows(sent, headers, calls, from)
    ensures !Sends(calls + [call], |calls|) ==> Follows(sent, headers, calls + [call], from)
    ensures forall e :: Sends(calls + [call], |calls|) && SentBy(e, headers, calls + [call], |calls|) ==>
              Follows(sent + [e], headers, calls + [call], from + [|calls|])
  {
    forall e, i | 0 <= i < |calls| ensures SentBy(e, headers, calls + [call], i) <==> SentBy(e, headers, calls, i) {
      SamePlace(e, headers, calls, call, i);
    }
    forall i | 0 <= i < |calls| ensures Sends(calls + [call], i) <==> Sends(calls, i) {
      SamePlace(Flushed(map[]), headers, calls, call, i);
    }
  }

  /** Without a timeout the client gets, in order, what the handler's calls say: each with the headers set by then, and
      of the final statuses only one that comes before any body or flush. */
  lemma {:induction false} AsWritten(headers: Headers, calls: seq<Call>) returns (from: seq<nat>)
    requires FromHandler(calls)
    ensures Follows(AfterAll(Start(headers), calls).sent, headers, calls, from)
    decreases |calls|
  {
    if calls == [] {
      from := [];
    } else {
      var n := |calls| - 1;
      var before, call := calls[..n], calls[n];
      assert calls == before + [call];
      from := AsWritten(headers, before);
      HandlerAlone(headers, before);
      HeadersOf(headers, before);
      FollowsLonger(AfterAll(Start(headers), before).sent, headers, before, from, call);
      assert forall j :: 0 <= j < n ==> before[j] == calls[j];
      if Sends(calls, n) {
        from := from + [n];
      }
    }
  }
}
