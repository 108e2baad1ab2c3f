/** A receive of a TCP Connection that is pending when the application closes or aborts the
    Connection, or when its read fails (src/TCPConnection.cpp), over real blocks. */
module Interrupted {
  import opened Bytes
  import opened Framing
  import opened Receive
  import opened LocalCalls
  import opened TCPConnections
  import opened TapsApi

  // Events that are not bytes.
  predicate NoChunks(ev: seq<Event>) {
    forall e :: e in ev ==> !e.Chunk? && !e.Exhausted?
  }

  /** What was met of these events is a beginning of them, or all of them and some more. */
  lemma {:induction false} MetInOrder(trace: seq<Event>, rest: seq<Item>, xs: seq<Event>, more: seq<Item>)
    requires NoChunks(xs) && NoEmptyReads(trace) && Exhausted !in trace
    requires Flat(trace) + rest == Flat(xs) + more
    ensures trace <= xs || xs <= trace
    decreases |trace|
  {
    if trace != [] && xs != [] {
      SameFirst(trace, rest, xs, more);
      MetInOrder(trace[1..], rest, xs[1..], more);
      assert trace == [trace[0]] + trace[1..] && xs == [xs[0]] + xs[1..];
    }
  }

  lemma SameFirst(trace: seq<Event>, rest: seq<Item>, xs: seq<Event>, more: seq<Item>)
    requires trace != [] && xs != [] && NoChunks(xs) && NoEmptyReads(trace) && Exhausted !in trace
    requires Flat(trace) + rest == Flat(xs) + more
    ensures trace[0] == xs[0] && Flat(trace[1..]) + rest == Flat(xs[1..]) + more
  {
    var all, e, x := Flat(trace) + rest, trace[0], xs[0];
    ConcatAssociative(FlatOne(e), Flat(trace[1..]), rest);
    ConcatAssociative(FlatOne(x), Flat(xs[1..]), more);
    assert x in xs && FlatOne(x) == [EventItem(x)] && all[0] == EventItem(x);
    assert e in trace && |FlatOne(e)| > 0;
    assert all[0] == FlatOne(e)[0];
    assert FlatOne(e) == [EventItem(e)];
    assert all[1..] == Flat(trace[1..]) + rest && all[1..] == Flat(xs[1..]) + more;
  }

  // A receive that met these calls and then the failure, met nothing else.
  lemma MetNoMore(mode: Option<Framer>, s: Conn, calls: seq<Event>, reason: ErrorReason, trace: seq<Event>)
    requires UsableIn(mode) && AllLocal(calls) && Waiting(mode, s)
    requires calls + [Failed(reason)] <= trace && ReceiveIn(mode, s, trace).rest == []
    ensures trace == calls + [Failed(reason)]
  {
    var tail := trace[|calls| + 1..];
    assert trace == calls + ([Failed(reason)] + tail);
    ReadFailsIn(mode, s, calls, reason, tail);
  }

  lemma MetSome(calls: seq<Event>, reason: ErrorReason, more: seq<Event>, trace: seq<Event>, left: seq<Event>)
    requires AllLocal(calls) && NoEmptyReads(trace) && Exhausted !in trace
    requires Flat(calls + ([Failed(reason)] + more)) == Flat(trace) + Flat(left)
    ensures trace <= calls || calls + [Failed(reason)] <= trace
    ensures left == [] ==> |Flat(calls + [Failed(reason)])| <= |Flat(trace)|
  {
    var xs := calls + [Failed(reason)];
    ConcatAssociative(calls, [Failed(reason)], more);
    FlatConcat(xs, more);
    NotBytes(calls, Failed(reason));
    MetInOrder(trace, Flat(left), xs, Flat(more));
    if trace <= xs {
      PrefixOfSnoc(calls, Failed(reason), trace);
    }
  }

  lemma NotBytes(calls: seq<Event>, e: Event)
    requires AllLocal(calls) && e.Failed?
    ensures NoChunks(calls + [e])
  {
  }

  lemma PrefixOfSnoc<T>(s: seq<T>, x: T, t: seq<T>)
    requires t <= s + [x]
    ensures t <= s || t == s + [x]
  {
    if |t| <= |s| {
      assert t == (s + [x])[..|t|] == s[..|t|];
    }
  }

  lemma MetTooLittle(calls: seq<Event>, reason: ErrorReason, trace: seq<Event>)
    requires trace <= calls
    ensures |Flat(calls + [Failed(reason)])| > |Flat(trace)|
  {
    var rest := calls[|trace|..];
    assert calls + [Failed(reason)] == trace + (rest + [Failed(reason)]);
    FlatConcat(trace, rest + [Failed(reason)]);
    FlatConcat(rest, [Failed(reason)]);
    assert Flat([Failed(reason)]) == FlatOne(Failed(reason)) + Flat([Failed(reason)][1..]);
  }

  lemma PartLocal(calls: seq<Event>, trace: seq<Event>)
    requires AllLocal(calls) && trace <= calls
    ensures AllLocal(trace)
  {
    assert forall i :: 0 <= i < |trace| ==> trace[i] == calls[i];
  }

  // And it cannot have met less, since it would still be waiting for what is left.
  lemma MetAll(mode: Option<Framer>, s: Conn, calls: seq<Event>, reason: ErrorReason, more: seq<Event>,
               trace: seq<Event>, left: seq<Event>)
    requires UsableIn(mode) && AllLocal(calls) && NoEmptyReads(trace) && Exhausted !in trace && Waiting(mode, s)
    requires Flat(calls + ([Failed(reason)] + more)) == Flat(trace) + Flat(left)
    requires var step := ReceiveIn(mode, s, trace); step.rest == [] && (step.outcome.Pending? ==> left == [])
    ensures trace == calls + [Failed(reason)]
  {
    MetSome(calls, reason, more, trace, left);
    if trace <= calls {
      PartLocal(calls, trace);
      StillPending(mode, s, trace);
      MetTooLittle(calls, reason, trace);
    } else {
      MetNoMore(mode, s, calls, reason, trace);
    }
  }

  // The receive has to read, and the stream has not ended.
  predicate Waiting(mode: Option<Framer>, s: Conn)
    requires UsableIn(mode)
  {
    CanReceive(s) && !s.eof && (mode.Some? ==> Parse(mode.value, s.buf, false).NeedMore?)
  }

  lemma StillPending(mode: Option<Framer>, s: Conn, calls: seq<Event>)
    requires UsableIn(mode) && Waiting(mode, s) && AllLocal(calls)
    ensures ReceiveIn(mode, s, calls).outcome.Pending?
  {
    if mode.Some? {
      LoopEnds(mode.value, s, calls, None);
    } else {
      OnceIs(s, calls, None);
    }
  }

  lemma ReadFailsIn(mode: Option<Framer>, s: Conn, calls: seq<Event>, reason: ErrorReason, more: seq<Event>)
    requires UsableIn(mode) && Waiting(mode, s) && AllLocal(calls)
    ensures ReceiveIn(mode, s, calls + ([Failed(reason)] + more))
         == if reason == LOCAL_ABORT && !AbortedBy(s, calls) then
              Step(Came(s, calls), Failure(RECEIVE_ERROR, INVALID_STATE), [], more)
            else Step(Came(s, calls).(state := CLOSED), Failure(CONNECTION_ERROR, reason), [], more)
  {
    if mode.Some? {
      ReachesThroughCalls(mode.value, s, calls);
      FramedReadFails(mode.value, s, calls, AfterAll(s, calls), reason, more);
    } else {
      UnframedReadFails(s, calls, reason, more);
    }
  }

  /** A pending receive during which the application makes some calls, and whose read then
      fails. A read cancelled after abort() ends it with CONNECTION_ERROR / LOCAL_ABORT, one
      cancelled without, by close(), with RECEIVE_ERROR / INVALID_STATE, and any other failure
      with CONNECTION_ERROR and its reason. Nothing received before is lost. */
  method ReceiveInterrupted(c: TCPConnection, ghost calls: seq<Event>, ghost reason: ErrorReason, ghost more: seq<Event>)
    returns (reply: Reply)
    requires c.Valid() && Scripted(c.script) && UsableIn(c.framer) && c.pool.maxLive == 0
    requires Waiting(c.framer, c.Abs()) && AllLocal(calls) && c.script == calls + ([Failed(reason)] + more)
    modifies c, c.current, c.pool, c.chain, c.chain.data
    ensures c.Valid() && c.Buffered() == old(c.Buffered()) && c.aborted == (old(c.aborted) || AbortCalled in calls)
    ensures reason == LOCAL_ABORT && c.aborted ==>
              reply == GotError(CONNECTION_ERROR, LOCAL_ABORT) && c.state == CLOSED
    ensures reason == LOCAL_ABORT && !c.aborted ==>
              reply == GotError(RECEIVE_ERROR, INVALID_STATE) && c.state == StateAfter(old(c.Abs()), calls)
    ensures reason != LOCAL_ABORT ==>
              reply == GotError(CONNECTION_ERROR, reason) && c.state == CLOSED
  {
    ghost var s, script, out, trace := c.Abs(), c.script, Pending, [];
    reply, out, trace := c.Receive();
    MetAll(c.framer, s, calls, reason, more, trace, c.script);
    ReadFailsIn(c.framer, s, calls, reason, []);
    assert calls + ([Failed(reason)] + []) == trace;
    CallsBringNothing(calls);
    assert s.buf + [] == s.buf;
  }
}
