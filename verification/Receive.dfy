/** The receive side of a TCP Connection on values (src/TCPConnection.cpp): what one call
    of receive() does to the Connection, given what the read attempts it makes meet. Class
    TCPConnection is proved to do exactly this. */
module Receive {
  import opened Bytes
  import opened Framing
  import opened TapsApi

  // What a receive() meets, in order: the outcomes of its read attempts, and what the rest
  // of the application does while a read is pending.
  datatype Event =
    | Exhausted                       // no block to read into: the pool is at its cap
    | Chunk(bytes: seq<Byte>)         // a read delivered bytes
    | Eof                             // the peer ended its side
    | Truncated                       // TLS: the stream was cut without close_notify
    | Failed(reason: ErrorReason)     // any other read error
    | CloseCalled | CloseFinished | AbortCalled
    | SendCompleted(failure: Option<ErrorReason>)

  datatype Outcome =
    | Received(body: seq<Byte>, endOfMessage: bool)
    | Failure(event: ErrorEvent, reason: ErrorReason)
    | Pending                         // the events ran out: still waiting

  datatype Conn = Conn(
    state: ConnectionState,
    buf: seq<Byte>,                   // received but not yet parsed
    eof: bool,                        // receive_eof_
    ended: bool,                      // receive_ended_
    open: bool,                       // message_open_
    aborted: bool)

  // dropped: bytes that left the buffer without being delivered.
  datatype Step = Step(conn: Conn, outcome: Outcome, dropped: seq<Byte>, rest: seq<Event>)

  const Fresh := Conn(ESTABLISHED, [], false, false, false, false)

  predicate CanReceive(s: Conn) {
    s.state == ESTABLISHED && !s.ended
  }

  const Refused := Failure(RECEIVE_ERROR, INVALID_STATE)

  function ReceiveFailure(s: Conn, event: ErrorEvent, reason: ErrorReason): (Conn, Outcome) {
    var (event, reason) := if reason == LOCAL_ABORT && !s.aborted then (RECEIVE_ERROR, INVALID_STATE) else (event, reason);
    var s := if event == CONNECTION_ERROR then s.(state := CLOSED)
             else if s.eof then s.(ended := true)
             else s;
    (s, Failure(event, reason))
  }

  datatype SendResult = Sent | SendFailed(event: ErrorEvent, reason: ErrorReason)

  // send() refuses at once unless the Connection is established; otherwise its write
  // completes some time later, perhaps with an error.
  predicate CanSend(s: Conn) {
    s.state == ESTABLISHED
  }

  function SendEnds(s: Conn, failure: Option<ErrorReason>): (Conn, SendResult) {
    match failure
    case None => (s, Sent)
    case Some(reason) =>
      if reason == LOCAL_ABORT && !s.aborted then (s, SendFailed(SEND_ERROR, INVALID_STATE))
      else (s.(state := CLOSED), SendFailed(CONNECTION_ERROR, reason))
  }

  // close() up to its wait for the peer, its end, and abort().
  function CloseBegins(s: Conn): Conn {
    if s.state == CLOSED || s.state == CLOSING then s else s.(state := CLOSING)
  }

  function CloseEnds(s: Conn): Conn { s.(state := CLOSED) }

  function Aborts(s: Conn): Conn { s.(aborted := true, state := CLOSED) }

  function Fails(s: Conn, event: ErrorEvent, reason: ErrorReason, dropped: seq<Byte>, rest: seq<Event>): Step {
    var (t, out) := ReceiveFailure(s, event, reason);
    Step(t, out, dropped, rest)
  }

  predicate ReadFailed(e: Event) {
    e.Exhausted? || e.Truncated? || e.Failed?
  }

  // A read that brings neither bytes nor a clean end; a cut TLS stream has ended too.
  function ReadFails(s: Conn, e: Event, rest: seq<Event>): Step
    requires ReadFailed(e)
  {
    match e
    case Exhausted => Fails(s, RECEIVE_ERROR, RESOURCE_EXHAUSTED, [], rest)
    case Truncated => Fails(s.(eof := true), RECEIVE_ERROR, PROTOCOL_FAILED, [], rest)
    case Failed(reason) => Fails(s, CONNECTION_ERROR, reason, [], rest)
  }

  // The `deliver` bytes behind the first `discard` ones, and what follows them, as far as
  // there are bytes.
  function Cut(buf: seq<Byte>, discard: nat, deliver: nat): seq<Byte> {
    var d := Min(discard, |buf|);
    buf[d..d + Min(deliver, |buf| - d)]
  }

  function Left(buf: seq<Byte>, discard: nat, deliver: nat): seq<Byte> {
    var d := Min(discard, |buf|);
    buf[d + Min(deliver, |buf| - d)..]
  }

  // Discarding first and then cutting from the front.
  lemma CutFromRest(buf: seq<Byte>, discard: nat, deliver: nat)
    ensures Cut(Left(buf, 0, discard), 0, deliver) == Cut(buf, discard, deliver)
    ensures Left(Left(buf, 0, discard), 0, deliver) == Left(buf, discard, deliver)
    ensures Left(buf, 0, 0) == buf
  {
  }

  // An Emit of the framer: the record leaves the buffer, unless it consumes nothing or
  // reaches beyond the received data.
  function EmitRecord(s: Conn, discard: nat, deliver: nat, eom: bool, rest: seq<Event>): Step {
    var consumed := SizeAdd(discard, deliver);
    if consumed == 0 || consumed > |s.buf| then Fails(s, RECEIVE_ERROR, DEFRAMING_FAILED, [], rest)
    else
      Step(s.(buf := Left(s.buf, discard, deliver), open := !eom), Received(Cut(s.buf, discard, deliver), eom),
           s.buf[..Min(discard, |s.buf|)], rest)
  }

  /** What the framer emits is cut out of the buffer: the bytes before it go, it is the Message,
      and what follows stays, for a record that has bytes and is all there. Any other is
      refused, which keeps the Connection and all bytes. (Sizes that wrap are another matter;
      see ParseIsIdealUnlessOverflow.) */
  lemma EmitIsExact(s: Conn, discard: nat, deliver: nat, eom: bool, rest: seq<Event>)
    requires discard + deliver < SIZE_MODULUS
    ensures var step := EmitRecord(s, discard, deliver, eom, rest);
            && step.rest == rest && step.conn.state == s.state && step.conn.eof == s.eof
            && step.dropped + Body(step.outcome) + step.conn.buf == s.buf
            && (0 < discard + deliver <= |s.buf| ==>
                  && step.outcome == Received(s.buf[discard..discard + deliver], eom) && |step.dropped| == discard
                  && step.conn.open == !eom && CanReceive(step.conn) == CanReceive(s))
            && (discard + deliver == 0 || discard + deliver > |s.buf| ==>
                  && step.outcome == Failure(RECEIVE_ERROR, DEFRAMING_FAILED) && step.conn.buf == s.buf
                  && step.conn.open == s.open && CanReceive(step.conn) == (CanReceive(s) && !s.eof))
  {
    if 0 < discard + deliver <= |s.buf| {
      ThreeParts(s.buf, discard, discard + deliver);
    } else {
      assert [] + [] + s.buf == s.buf;
    }
  }

  // The framer needs more, but the stream has ended.
  function AtEnd(s: Conn, rest: seq<Event>): Step {
    if s.open || s.buf != [] then
      Fails(s.(buf := [], open := false), RECEIVE_ERROR, DEFRAMING_FAILED, s.buf, rest)
    else Step(s.(ended := true), Received([], true), [], rest)
  }

  // The loop of receive_framed().
  function ReceiveLoop(f: Framer, s: Conn, ev: seq<Event>): Step
    requires Usable(f)
    decreases |ev|, if s.eof then 0 else 1
  {
    match Parse(f, s.buf, s.eof)
    case Emit(discard, deliver, eom, _) => EmitRecord(s, discard, deliver, eom, ev)
    case NeedMore(_) =>
      if s.eof then AtEnd(s, ev)
      else if ev == [] then Step(s, Pending, [], [])
      else
        var more := ev[1..];
        match ev[0]
        case Chunk(bytes) => ReceiveLoop(f, s.(buf := s.buf + bytes), more)
        case Eof => ReceiveLoop(f, s.(eof := true), more)
        case Exhausted => ReadFails(s, ev[0], more)
        case Truncated => ReadFails(s, ev[0], more)
        case Failed(reason) => ReadFails(s, ev[0], more)
        case CloseCalled => ReceiveLoop(f, CloseBegins(s), more)
        case CloseFinished => ReceiveLoop(f, CloseEnds(s), more)
        case AbortCalled => ReceiveLoop(f, Aborts(s), more)
        case SendCompleted(failure) => ReceiveLoop(f, SendEnds(s, failure).0, more)
  }

  function ReceiveFramed(f: Framer, s: Conn, ev: seq<Event>): Step
    requires Usable(f)
  {
    if !CanReceive(s) then Step(s, Refused, [], ev) else ReceiveLoop(f, s, ev)
  }

  // receive_unframed() reads once.
  function ReceiveUnframed(s: Conn, ev: seq<Event>): Step {
    if !CanReceive(s) then Step(s, Refused, [], ev) else ReadOnce(s, ev)
  }

  function ReadOnce(s: Conn, ev: seq<Event>): Step
    decreases |ev|
  {
    if ev == [] then Step(s, Pending, [], [])
    else
      var more := ev[1..];
      match ev[0]
      case Chunk(bytes) => Step(s, Received(bytes, false), [], more)
      case Eof => Step(s.(eof := true, ended := true), Received([], true), [], more)
      case Exhausted => ReadFails(s, ev[0], more)
      case Truncated => ReadFails(s, ev[0], more)
      case Failed(reason) => ReadFails(s, ev[0], more)
      case CloseCalled => ReadOnce(CloseBegins(s), more)
      case CloseFinished => ReadOnce(CloseEnds(s), more)
      case AbortCalled => ReadOnce(Aborts(s), more)
      case SendCompleted(failure) => ReadOnce(SendEnds(s, failure).0, more)
  }

  // receive() takes its mode from the framer of the Connection, if it has one.
  predicate UsableIn(mode: Option<Framer>) {
    mode.Some? ==> Usable(mode.value)
  }

  function ReceiveIn(mode: Option<Framer>, s: Conn, ev: seq<Event>): Step
    requires UsableIn(mode)
  {
    if mode.Some? then ReceiveFramed(mode.value, s, ev) else ReceiveUnframed(s, ev)
  }

  // n successive calls of receive(): their results, and where they leave the Connection.
  datatype Run = Run(outcomes: seq<Outcome>, conn: Conn, rest: seq<Event>, consumed: seq<Byte>)

  function Receives(mode: Option<Framer>, s: Conn, ev: seq<Event>, n: nat): Run
    requires UsableIn(mode)
    decreases n
  {
    if n == 0 then Run([], s, ev, [])
    else
      var step := ReceiveIn(mode, s, ev);
      var run := Receives(mode, step.conn, step.rest, n - 1);
      Run([step.outcome] + run.outcomes, run.conn, run.rest, step.dropped + Body(step.outcome) + run.consumed)
  }

  function Body(o: Outcome): seq<Byte> {
    if o.Received? then o.body else []
  }

  // The bytes the reads of a sequence of events deliver.
  function Read(ev: seq<Event>): seq<Byte> {
    if ev == [] then []
    else if ev[0].Chunk? then ev[0].bytes + Read(ev[1..])
    else Read(ev[1..])
  }

  // ---- Conservation ----

  // The buffered and the read bytes are the dropped ones, the delivered ones, the buffer
  // and what is still to be read, in order.
  predicate Conserves(s: Conn, ev: seq<Event>, step: Step) {
    s.buf + Read(ev) == step.dropped + (Body(step.outcome) + (step.conn.buf + Read(step.rest)))
  }

  lemma NothingMoved<T>(x: seq<T>)
    ensures [] + ([] + x) == x
  {
  }

  /** One call loses nothing. Bytes are dropped only in front of a delivered body, or when
      the end of the stream is reported. */
  lemma {:induction false} LoopConserves(f: Framer, s: Conn, ev: seq<Event>)
    requires Usable(f)
    ensures Conserves(s, ev, ReceiveLoop(f, s, ev))
    decreases |ev|, if s.eof then 0 else 1
  {
    match Parse(f, s.buf, s.eof)
    case Emit(discard, deliver, eom, _) => EmitConserves(s, discard, deliver, eom, ev);
    case NeedMore(_) =>
      if s.eof {
        AtEndConserves(s, ev);
      } else if ev != [] {
        ReadConserves(f, s, ev);
      } else {
        NothingMoved(s.buf + Read(ev));
      }
  }

  lemma ReadConserves(f: Framer, s: Conn, ev: seq<Event>)
    requires Usable(f) && Parse(f, s.buf, s.eof).NeedMore? && !s.eof && ev != []
    ensures Conserves(s, ev, ReceiveLoop(f, s, ev))
    decreases |ev|, 0
  {
    var more := ev[1..];
    assert ev == [ev[0]] + more;
    if ev[0].Chunk? {
      ChunkConserves(f, s, ev[0].bytes, more);
    } else if Continues(ev[0]) {
      LoopSteps(f, s, ev);
      LoopConserves(f, After(s, ev[0]), more);
    } else {
      NothingMoved(s.buf + Read(more));
    }
  }

  // The loop goes on from where the first event leaves the Connection; only bytes change
  // the buffer.
  lemma LoopSteps(f: Framer, s: Conn, ev: seq<Event>)
    requires Usable(f) && Parse(f, s.buf, s.eof).NeedMore? && !s.eof && ev != [] && Continues(ev[0])
    ensures ReceiveLoop(f, s, ev) == ReceiveLoop(f, After(s, ev[0]), ev[1..])
    ensures !ev[0].Chunk? ==> After(s, ev[0]).buf == s.buf && Read(ev) == Read(ev[1..])
  {
  }

  lemma ChunkConserves(f: Framer, s: Conn, bytes: seq<Byte>, more: seq<Event>)
    requires Usable(f)
    ensures Conserves(s, [Chunk(bytes)] + more, ReceiveLoop(f, s.(buf := s.buf + bytes), more))
    decreases |more|, 3
  {
    LoopConserves(f, s.(buf := s.buf + bytes), more);
    ConcatAssociative(s.buf, bytes, Read(more));
    assert ([Chunk(bytes)] + more)[1..] == more;
  }

  lemma AtEndConserves(s: Conn, ev: seq<Event>)
    ensures Conserves(s, ev, AtEnd(s, ev))
  {
    if s.open || s.buf != [] {
      assert [] + ([] + Read(ev)) == Read(ev);
    } else {
      NothingMoved(s.buf + Read(ev));
    }
  }

  lemma EmitConserves(s: Conn, discard: nat, deliver: nat, eom: bool, ev: seq<Event>)
    ensures Conserves(s, ev, EmitRecord(s, discard, deliver, eom, ev))
  {
    var consumed := SizeAdd(discard, deliver);
    if consumed == 0 || consumed > |s.buf| {
      NothingMoved(s.buf + Read(ev));
    } else {
      var d := Min(discard, |s.buf|);
      var e := d + Min(deliver, |s.buf| - d);
      ThreeParts(s.buf, d, e);
      ConcatAssociative(s.buf[..d] + s.buf[d..e], s.buf[e..], Read(ev));
      ConcatAssociative(s.buf[..d], s.buf[d..e], s.buf[e..] + Read(ev));
    }
  }

  // ---- The loop, one event at a time ----

  // What the application does while a read is pending.
  predicate LocalCall(e: Event) {
    e.CloseCalled? || e.CloseFinished? || e.AbortCalled? || e.SendCompleted?
  }

  predicate AllLocal(calls: seq<Event>) {
    forall i :: 0 <= i < |calls| ==> LocalCall(calls[i])
  }

  predicate Continues(e: Event) {
    e.Chunk? || e.Eof? || LocalCall(e)
  }

  function After(s: Conn, e: Event): Conn
    requires Continues(e)
  {
    match e
    case Chunk(bytes) => s.(buf := s.buf + bytes)
    case Eof => s.(eof := true)
    case CloseCalled => CloseBegins(s)
    case CloseFinished => CloseEnds(s)
    case AbortCalled => Aborts(s)
    case SendCompleted(failure) => SendEnds(s, failure).0
  }

  function AfterAll(s: Conn, ev: seq<Event>): Conn
    requires AllLocal(ev)
    decreases |ev|
  {
    if ev == [] then s else AfterAll(After(s, ev[0]), ev[1..])
  }

  // The loop asks for more at every event of the trace, which takes it from s to t.
  predicate Reaches(f: Framer, s: Conn, trace: seq<Event>, t: Conn)
    requires Usable(f)
    decreases |trace|
  {
    if trace == [] then s == t
    else
      && Parse(f, s.buf, s.eof).NeedMore? && !s.eof
      && Continues(trace[0]) && Reaches(f, After(s, trace[0]), trace[1..], t)
  }

  lemma {:induction false} ReachesOn(f: Framer, s: Conn, a: seq<Event>, t: Conn, b: seq<Event>, u: Conn)
    requires Usable(f) && Reaches(f, s, a, t) && Reaches(f, t, b, u)
    ensures Reaches(f, s, a + b, u)
    decreases |a|
  {
    if a == [] {
      assert a + b == b;
    } else {
      assert (a + b)[1..] == a[1..] + b;
      ReachesOn(f, After(s, a[0]), a[1..], t, b, u);
    }
  }

  /** What the loop does after a trace is what it does from the state the trace leads to. */
  lemma {:induction false} LoopFrom(f: Framer, s: Conn, trace: seq<Event>, t: Conn, ev: seq<Event>)
    requires Usable(f) && Reaches(f, s, trace, t)
    ensures ReceiveLoop(f, s, trace + ev) == ReceiveLoop(f, t, ev)
    decreases |trace|
  {
    if trace == [] {
      assert trace + ev == ev;
    } else {
      assert (trace + ev)[1..] == trace[1..] + ev;
      LoopFrom(f, After(s, trace[0]), trace[1..], t, ev);
    }
  }

  lemma {:induction false} ReachesThroughCalls(f: Framer, s: Conn, calls: seq<Event>)
    requires Usable(f) && Parse(f, s.buf, s.eof).NeedMore? && !s.eof
    requires AllLocal(calls)
    ensures Reaches(f, s, calls, AfterAll(s, calls))
    ensures AfterAll(s, calls).buf == s.buf && AfterAll(s, calls).eof == s.eof
    decreases |calls|
  {
    if calls != [] {
      ReachesThroughCalls(f, After(s, calls[0]), calls[1..]);
    }
  }

  // The error of a failed read, before receive_failure() sees it.
  function Reported(e: Event): (ErrorEvent, ErrorReason)
    requires ReadFailed(e)
  {
    match e
    case Exhausted => (RECEIVE_ERROR, RESOURCE_EXHAUSTED)
    case Truncated => (RECEIVE_ERROR, PROTOCOL_FAILED)
    case Failed(reason) => (CONNECTION_ERROR, reason)
  }

  // finish_read() and receive_failure(), one after the other, make up a failed read.
  lemma FailureOfRead(t: Conn, e: Event)
    requires ReadFailed(e)
    ensures var step := ReadFails(t, e, []);
            (step.conn, step.outcome) == ReceiveFailure(AfterRead(t, Some(e)), Reported(e).0, Reported(e).1)
  {
  }

  // The one read of receive_unframed() when its outcome is e.
  function OnceWith(t: Conn, e: Option<Event>): Step
    requires e.Some? ==> !LocalCall(e.value)
  {
    if e.None? then Step(t, Pending, [], [])
    else if e.value.Chunk? then Step(t, Received(e.value.bytes, false), [], [])
    else if e.value.Eof? then Step(t.(eof := true, ended := true), Received([], true), [], [])
    else ReadFails(t, e.value, [])
  }

  lemma OnceIs(s: Conn, calls: seq<Event>, e: Option<Event>)
    requires AllLocal(calls) && (e.Some? ==> !LocalCall(e.value))
    ensures ReadOnce(s, if e.Some? then calls + [e.value] else calls) == OnceWith(AfterAll(s, calls), e)
  {
    if e.Some? {
      OnceThroughCalls(s, calls, [e.value]);
      assert [e.value][1..] == [];
    } else {
      OnceThroughCalls(s, calls, []);
      assert calls + [] == calls;
    }
  }

  // A read attempt that ends the loop: nothing came, or the read failed.
  lemma LoopEnds(f: Framer, s: Conn, calls: seq<Event>, e: Option<Event>)
    requires Usable(f) && Parse(f, s.buf, s.eof).NeedMore? && !s.eof
    requires AllLocal(calls)
    requires e.Some? ==> ReadFailed(e.value)
    ensures var t := AfterAll(s, calls);
            && (e.None? ==> ReceiveLoop(f, s, calls) == Step(t, Pending, [], []))
            && (e.Some? ==> ReceiveLoop(f, s, calls + [e.value]) == ReadFails(t, e.value, []))
  {
    var t := AfterAll(s, calls);
    ReachesThroughCalls(f, s, calls);
    if e.Some? {
      LoopFrom(f, s, calls, t, [e.value]);
      assert [e.value][1..] == [];
    } else {
      LoopFrom(f, s, calls, t, []);
      assert calls + [] == calls;
    }
  }

  // A read attempt after which the loop goes on.
  lemma LoopGoesOn(f: Framer, s: Conn, calls: seq<Event>, e: Event)
    requires Usable(f) && Parse(f, s.buf, s.eof).NeedMore? && !s.eof
    requires AllLocal(calls)
    requires e.Chunk? || e.Eof?
    ensures Reaches(f, s, calls + [e], After(AfterAll(s, calls), e))
    ensures AfterAll(s, calls).buf == s.buf
  {
    var t := AfterAll(s, calls);
    ReachesThroughCalls(f, s, calls);
    assert [e][1..] == [];
    assert Reaches(f, t, [e], After(t, e));
    ReachesOn(f, s, calls, t, [e], After(t, e));
  }

  /** The calls made while the one read of receive_unframed() is pending. */
  lemma {:induction false} OnceThroughCalls(s: Conn, calls: seq<Event>, ev: seq<Event>)
    requires AllLocal(calls)
    ensures ReadOnce(s, calls + ev) == ReadOnce(AfterAll(s, calls), ev)
    decreases |calls|
  {
    if calls == [] {
      assert calls + ev == ev;
    } else {
      assert (calls + ev)[1..] == calls[1..] + ev;
      OnceThroughCalls(After(s, calls[0]), calls[1..], ev);
    }
  }

  // What finish_read() does to the Connection apart from the bytes.
  function AfterRead(s: Conn, e: Option<Event>): Conn {
    if e.Some? && (e.value.Eof? || e.value.Truncated?) then s.(eof := true) else s
  }

  lemma {:induction false} AfterCallsKeepsBytes(s: Conn, calls: seq<Event>, buf: seq<Byte>)
    requires AllLocal(calls)
    ensures AfterAll(s.(buf := buf), calls) == AfterAll(s, calls).(buf := buf)
    ensures AfterAll(s, calls).eof == s.eof
    decreases |calls|
  {
    if calls != [] {
      AfterCallsKeepsBytes(After(s, calls[0]), calls[1..], buf);
    }
  }

  lemma {:induction false} AfterAllSnoc(s: Conn, calls: seq<Event>, e: Event)
    requires AllLocal(calls) && LocalCall(e)
    ensures AfterAll(s, calls + [e]) == After(AfterAll(s, calls), e)
    decreases |calls|
  {
    if calls == [] {
      assert calls + [e] == [e] && [e][1..] == [];
    } else {
      assert (calls + [e])[1..] == calls[1..] + [e];
      AfterAllSnoc(After(s, calls[0]), calls[1..], e);
    }
  }

  // ---- Failures ----

  // The stream has ended, and the framer cannot make a Message of what is left.
  predicate LeavesOver(f: Framer, t: Conn)
    requires Usable(f)
  {
    t.eof && t.buf != [] && Parse(f, t.buf, true).NeedMore?
  }

  lemma {:induction false} DroppedAtEnd(f: Framer, s: Conn, ev: seq<Event>) returns (i: nat, t: Conn)
    requires Usable(f) && !ReceiveLoop(f, s, ev).outcome.Received? && ReceiveLoop(f, s, ev).dropped != []
    ensures i <= |ev| && Reaches(f, s, ev[..i], t) && LeavesOver(f, t)
    decreases |ev|
  {
    if s.eof {
      i, t := 0, s;
    } else {
      i, t := DroppedAtEnd(f, After(s, ev[0]), ev[1..]);
      assert ev[..i + 1][1..] == ev[1..][..i];
      i := i + 1;
    }
  }

  /** A receive that fails, also one that refuses what the framer emitted, drops bytes if
      and only if it comes to the end of the stream with bytes left over. Otherwise what was
      buffered and read is still there. */
  lemma FailureKeepsBytes(f: Framer, s: Conn, ev: seq<Event>)
    requires Usable(f) && !ReceiveLoop(f, s, ev).outcome.Received?
    ensures var step := ReceiveLoop(f, s, ev);
            && (step.dropped != [] <==>
                  exists i: nat, t :: i <= |ev| && Reaches(f, s, ev[..i], t) && LeavesOver(f, t))
            && (step.dropped == [] ==> s.buf + Read(ev) == step.conn.buf + Read(step.rest))
  {
    var step := ReceiveLoop(f, s, ev);
    if step.dropped != [] {
      var i, t := DroppedAtEnd(f, s, ev);
    } else {
      LoopConserves(f, s, ev);
      NothingMoved(step.conn.buf + Read(step.rest));
    }
    forall i: nat, t | i <= |ev| && Reaches(f, s, ev[..i], t) && LeavesOver(f, t)
      ensures step.dropped != []
    {
      assert ev == ev[..i] + ev[i..];
      LoopFrom(f, s, ev[..i], t, ev[i..]);
    }
  }

  // ---- Reads that bring nothing ----

  /** Reads of 0 bytes get receive_framed() nowhere: after any number of them the framer is
      asked the same as before, and nothing has changed. */
  lemma {:induction false} EmptyReadsStall(f: Framer, s: Conn, k: nat)
    requires Usable(f) && Parse(f, s.buf, s.eof).NeedMore? && !s.eof
    ensures Reaches(f, s, seq(k, _ => Chunk([])), s)
    ensures ReceiveLoop(f, s, seq(k, _ => Chunk([]))) == Step(s, Pending, [], [])
    decreases k
  {
    if k > 0 {
      var stalls := seq(k, _ => Chunk([]));
      assert s.buf + [] == s.buf && stalls[1..] == seq(k - 1, _ => Chunk([]));
      EmptyReadsStall(f, s, k - 1);
    }
  }

  // ---- What the network still has to say ----

  // Bytes and other events, one by one: how a read cuts the bytes does not matter.
  datatype Item = ByteItem(b: Byte) | EventItem(e: Event)

  function Flat(ev: seq<Event>): seq<Item> {
    if ev == [] then [] else FlatOne(ev[0]) + Flat(ev[1..])
  }

  function FlatOne(e: Event): seq<Item> {
    match e
    case Chunk(bytes) => seq(|bytes|, i requires 0 <= i < |bytes| => ByteItem(bytes[i]))
    case Exhausted => []
    case _ => [EventItem(e)]
  }

  lemma {:induction false} FlatConcat(a: seq<Event>, b: seq<Event>)
    ensures Flat(a + b) == Flat(a) + Flat(b)
  {
    if a == [] {
      assert a + b == b;
    } else {
      assert (a + b)[1..] == a[1..] + b;
      FlatConcat(a[1..], b);
      ConcatAssociative(FlatOne(a[0]), Flat(a[1..]), Flat(b));
    }
  }

  // Cutting a chunk in two changes nothing.
  lemma FlatCut(bytes: seq<Byte>, n: nat, ev: seq<Event>)
    requires n <= |bytes|
    ensures Flat([Chunk(bytes)] + ev) == FlatOne(Chunk(bytes[..n])) + Flat([Chunk(bytes[n..])] + ev)
    ensures FlatOne(Chunk(bytes)) == FlatOne(Chunk(bytes[..n])) + FlatOne(Chunk(bytes[n..]))
  {
    assert ([Chunk(bytes)] + ev)[1..] == ev && ([Chunk(bytes[n..])] + ev)[1..] == ev;
    assert FlatOne(Chunk(bytes)) == FlatOne(Chunk(bytes[..n])) + FlatOne(Chunk(bytes[n..]));
    ConcatAssociative(FlatOne(Chunk(bytes[..n])), FlatOne(Chunk(bytes[n..])), Flat(ev));
  }
}
