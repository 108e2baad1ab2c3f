/** What close(), abort() and the completion of a send come to while a send or a receive of a
    TCP Connection is pending, and how the pending operation then ends
    (src/TCPConnection.cpp), stated without the steps of module Receive. */
module LocalCalls {
  import opened Bytes
  import opened Framing
  import opened Receive
  import opened TapsApi

  // ---- The Connection after some calls ----

  // These close the Connection. A write that was cancelled does so only after an abort.
  predicate Closes(e: Event, aborted: bool) {
    || e.AbortCalled? || e.CloseFinished?
    || (e.SendCompleted? && e.failure.Some? && (e.failure.value != LOCAL_ABORT || aborted))
  }

  predicate AnyCloses(trace: seq<Event>, aborted: bool) {
    exists e :: e in trace && Closes(e, aborted)
  }

  // In any order, closed wins over closing.
  function StateAfter(s: Conn, trace: seq<Event>): ConnectionState {
    if s.state == CLOSED || AnyCloses(trace, s.aborted) then CLOSED
    else if CloseCalled in trace then CLOSING
    else s.state
  }

  predicate AbortedBy(s: Conn, trace: seq<Event>) {
    s.aborted || AbortCalled in trace
  }

  // All that was met, and nothing else, has changed.
  function Came(s: Conn, trace: seq<Event>): Conn {
    s.(state := StateAfter(s, trace), aborted := AbortedBy(s, trace),
       buf := s.buf + Read(trace), eof := s.eof || Eof in trace)
  }

  lemma FirstCame(s: Conn, e: Event, more: seq<Event>)
    requires Continues(e)
    ensures Came(After(s, e), more) == Came(s, [e] + more)
  {
    var trace, t := [e] + more, After(s, e);
    assert trace[0] == e && trace[1..] == more;
    assert forall x :: x in trace <==> x == e || x in more;
    ConcatAssociative(s.buf, ReadOf(e), Read(more));
    StateCame(s, e, more);
  }

  function ReadOf(e: Event): seq<Byte> {
    if e.Chunk? then e.bytes else []
  }

  lemma StateCame(s: Conn, e: Event, more: seq<Event>)
    requires Continues(e)
    ensures StateAfter(After(s, e), more) == StateAfter(s, [e] + more)
  {
    var trace := [e] + more;
    assert e in trace && forall x :: x in trace <==> x == e || x in more;
    if Closes(e, s.aborted) {
      assert AnyCloses(trace, s.aborted);
    } else {
      assert After(s, e).aborted == s.aborted;
      assert AnyCloses(trace, s.aborted) == AnyCloses(more, s.aborted);
    }
  }

  /** The calls made while a write or a read is pending: the last word has the call that goes
      furthest, and only abort() marks the Connection as aborted. */
  lemma {:induction false} CallsComeTo(s: Conn, calls: seq<Event>)
    requires AllLocal(calls)
    ensures AfterAll(s, calls) == Came(s, calls)
    decreases |calls|
  {
    if calls == [] {
      assert s.buf + [] == s.buf;
    } else {
      CallsComeTo(After(s, calls[0]), calls[1..]);
      FirstCame(s, calls[0], calls[1..]);
      assert [calls[0]] + calls[1..] == calls;
    }
  }

  /** And while the reads of a framed receive go on. */
  lemma {:induction false} TraceComesTo(f: Framer, s: Conn, trace: seq<Event>, t: Conn)
    requires Usable(f) && Reaches(f, s, trace, t)
    ensures t == Came(s, trace)
    decreases |trace|
  {
    if trace == [] {
      assert s.buf + [] == s.buf;
    } else {
      TraceComesTo(f, After(s, trace[0]), trace[1..], t);
      FirstCame(s, trace[0], trace[1..]);
      assert [trace[0]] + trace[1..] == trace;
    }
  }

  // ---- Pending receives ----


  /** A framed receive whose read fails: with CONNECTION_ERROR and the reason, which closes
      the Connection; but when the read was cancelled and nobody has called abort(), before or
      meanwhile, with RECEIVE_ERROR / INVALID_STATE, and the Connection is where the calls
      have left it. Nothing received is lost. */
  lemma FramedReadFails(f: Framer, s: Conn, trace: seq<Event>, t: Conn, reason: ErrorReason, more: seq<Event>)
    requires Usable(f) && CanReceive(s) && Reaches(f, s, trace, t)
    requires Parse(f, t.buf, t.eof).NeedMore? && !t.eof
    ensures ReceiveFramed(f, s, trace + ([Failed(reason)] + more))
         == if reason == LOCAL_ABORT && !AbortedBy(s, trace) then
              Step(Came(s, trace), Failure(RECEIVE_ERROR, INVALID_STATE), [], more)
            else Step(Came(s, trace).(state := CLOSED), Failure(CONNECTION_ERROR, reason), [], more)
  {
    LoopFrom(f, s, trace, t, [Failed(reason)] + more);
    TraceComesTo(f, s, trace, t);
    assert ([Failed(reason)] + more)[1..] == more;
  }

  /** The same of a receive without a framer; if the stream had ended, this was the last one. */
  lemma UnframedReadFails(s: Conn, calls: seq<Event>, reason: ErrorReason, more: seq<Event>)
    requires CanReceive(s) && AllLocal(calls)
    ensures ReceiveUnframed(s, calls + ([Failed(reason)] + more))
         == if reason == LOCAL_ABORT && !AbortedBy(s, calls) then
              Step(Came(s, calls).(ended := s.eof), Failure(RECEIVE_ERROR, INVALID_STATE), [], more)
            else Step(Came(s, calls).(state := CLOSED), Failure(CONNECTION_ERROR, reason), [], more)
  {
    OnceThroughCalls(s, calls, [Failed(reason)] + more);
    CallsComeTo(s, calls);
    CallsBringNothing(calls);
    assert ([Failed(reason)] + more)[1..] == more;
  }

  lemma {:induction false} CallsBringNothing(calls: seq<Event>)
    requires AllLocal(calls)
    ensures Read(calls) == [] && Eof !in calls
  {
    if calls != [] {
      CallsBringNothing(calls[1..]);
    }
  }

  // ---- The Connection after a receive ----

  predicate ClosedBy(o: Outcome) {
    o.Failure? && o.event == CONNECTION_ERROR
  }

  // The receive met this much of ev, and has closed the Connection if it reports so;
  // otherwise the Connection is where the calls among it have left it.
  predicate Leaves(s: Conn, ev: seq<Event>, step: Step, met: seq<Event>) {
    && ev == met + step.rest
    && step.conn.aborted == AbortedBy(s, met)
    && step.conn.state == if ClosedBy(step.outcome) then CLOSED else StateAfter(s, met)
  }

  lemma LeavesLater(s: Conn, e: Event, more: seq<Event>, step: Step, met: seq<Event>)
    requires Continues(e) && Leaves(After(s, e), more, step, met)
    ensures Leaves(s, [e] + more, step, [e] + met)
  {
    StateCame(s, e, met);
    ConcatAssociative([e], met, step.rest);
    assert forall x :: x in [e] + met <==> x == e || x in met;
  }

  lemma LeavesAtOnce(s: Conn, ev: seq<Event>, step: Step)
    requires step.rest == ev && step.conn.aborted == s.aborted
    requires step.conn.state == if ClosedBy(step.outcome) then CLOSED else s.state
    ensures Leaves(s, ev, step, [])
  {
    assert [] + ev == ev;
  }

  lemma LeavesFailed(s: Conn, e: Event, more: seq<Event>)
    requires ReadFailed(e)
    ensures Leaves(s, [e] + more, ReadFails(s, e, more), [e])
  {
    assert !Closes(e, s.aborted);
  }

  /** After a framed receive, whatever it met. */
  lemma {:induction false} FramedLeaves(f: Framer, s: Conn, ev: seq<Event>) returns (met: seq<Event>)
    requires Usable(f)
    ensures Leaves(s, ev, ReceiveLoop(f, s, ev), met)
    decreases |ev|, if s.eof then 0 else 1
  {
    if Parse(f, s.buf, s.eof).NeedMore? && !s.eof && ev != [] {
      assert ev == [ev[0]] + ev[1..];
      if Continues(ev[0]) {
        LoopFrom(f, s, [ev[0]], After(s, ev[0]), ev[1..]);
        met := FramedLeaves(f, After(s, ev[0]), ev[1..]);
        LeavesLater(s, ev[0], ev[1..], ReceiveLoop(f, s, ev), met);
        met := [ev[0]] + met;
      } else {
        LeavesFailed(s, ev[0], ev[1..]);
        met := [ev[0]];
      }
    } else {
      LeavesAtOnce(s, ev, ReceiveLoop(f, s, ev));
      met := [];
    }
  }

  /** And after one without a framer. */
  lemma {:induction false} UnframedLeaves(s: Conn, ev: seq<Event>) returns (met: seq<Event>)
    ensures Leaves(s, ev, ReadOnce(s, ev), met)
    decreases |ev|
  {
    if ev == [] {
      LeavesAtOnce(s, ev, ReadOnce(s, ev));
      met := [];
    } else {
      assert ev == [ev[0]] + ev[1..];
      if LocalCall(ev[0]) {
        met := UnframedLeaves(After(s, ev[0]), ev[1..]);
        LeavesLater(s, ev[0], ev[1..], ReadOnce(s, ev), met);
        met := [ev[0]] + met;
      } else {
        assert !Closes(ev[0], s.aborted);
        met := [ev[0]];
      }
    }
  }

  // ---- Sends ----

  /** How a write ends, and the Connection after it: it changes nothing if it succeeds, or if
      it was cancelled without an abort; any other failure closes the Connection. */
  lemma WriteEnds(s: Conn, calls: seq<Event>, failure: Option<ErrorReason>)
    requires AllLocal(calls)
    ensures SendEnds(AfterAll(s, calls), failure)
         == if failure == None then (Came(s, calls), Sent)
            else if failure == Some(LOCAL_ABORT) && !AbortedBy(s, calls) then
              (Came(s, calls), SendFailed(SEND_ERROR, INVALID_STATE))
            else (Came(s, calls).(state := CLOSED), SendFailed(CONNECTION_ERROR, failure.value))
  {
    CallsComeTo(s, calls);
  }
}
