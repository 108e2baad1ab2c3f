/** A TCP Connection over its whole life (src/TCPConnection.cpp): any sequence of sends,
    receives, closes and aborts, whatever the network does. */
module Lifecycle {
  import Bytes
  import opened TapsApi
  import opened Framing
  import opened Receive
  import opened LocalCalls

  datatype Op =
    | Connected(failed: bool)               // connect() resumes from its wait; a closed socket
                                            // has no remote endpoint, which fails it, too
    | SendCall                              // send() up to its write
    | SendDone(failure: Bytes.Option<ErrorReason>)
    | FramedReceive(f: Framer, ev: seq<Event>)
    | UnframedReceive(ev: seq<Event>)
    | CloseCall
    | CloseDone
    | AbortCall

  predicate Sensible(ops: seq<Op>) {
    forall i :: 0 <= i < |ops| && ops[i].FramedReceive? ==> Usable(ops[i].f)
  }

  function Do(s: Conn, op: Op): Conn
    requires op.FramedReceive? ==> Usable(op.f)
  {
    match op
    case Connected(failed) => s.(state := if failed || s.state == CLOSED then CLOSED else ESTABLISHED)
    case SendCall => s
    case SendDone(failure) => SendEnds(s, failure).0
    case FramedReceive(f, ev) => ReceiveFramed(f, s, ev).conn
    case UnframedReceive(ev) => ReceiveUnframed(s, ev).conn
    case CloseCall => CloseBegins(s)
    case CloseDone => CloseEnds(s)
    case AbortCall => Aborts(s)
  }

  function DoAll(s: Conn, ops: seq<Op>): Conn
    requires Sensible(ops)
    decreases |ops|
  {
    if ops == [] then s else DoAll(Do(s, ops[0]), ops[1..])
  }

  // ---- Nothing is taken back ----

  function Rank(state: ConnectionState): nat {
    match state
    case ESTABLISHING => 0
    case ESTABLISHED => 1
    case CLOSING => 2
    case CLOSED => 3
  }

  /** The state never moves backwards, and what has been seen stays seen. */
  predicate Later(s: Conn, t: Conn) {
    && Rank(s.state) <= Rank(t.state)
    && (s.eof ==> t.eof) && (s.ended ==> t.ended) && (s.aborted ==> t.aborted)
  }

  lemma {:induction false} LoopIsLater(f: Framer, s: Conn, ev: seq<Event>)
    requires Usable(f)
    ensures Later(s, ReceiveLoop(f, s, ev).conn)
    decreases |ev|, if s.eof then 0 else 1
  {
    if Parse(f, s.buf, s.eof).NeedMore? && !s.eof && ev != [] {
      if Continues(ev[0]) {
        AfterIsLater(s, ev[0]);
        LoopIsLater(f, After(s, ev[0]), ev[1..]);
      } else {
        FailsIsLater(s, ev[0]);
      }
    }
  }

  lemma AfterIsLater(s: Conn, e: Event)
    requires Continues(e)
    ensures Later(s, After(s, e))
  {
  }

  lemma FailsIsLater(s: Conn, e: Event)
    requires ReadFailed(e)
    ensures forall rest :: Later(s, ReadFails(s, e, rest).conn)
  {
  }

  lemma {:induction false} OnceIsLater(s: Conn, ev: seq<Event>)
    ensures Later(s, ReadOnce(s, ev).conn)
    decreases |ev|
  {
    if ev != [] && LocalCall(ev[0]) {
      OnceIsLater(After(s, ev[0]), ev[1..]);
    }
  }

  // The operation undoes nothing, whatever state it finds.
  lemma OpIsLater(s: Conn, op: Op)
    requires op.FramedReceive? ==> Usable(op.f)
    ensures Later(s, Do(s, op)) <==> !ConnectsLate(s, op)
    ensures (s.ended ==> Do(s, op).ended) && (s.aborted ==> Do(s, op).aborted)
  {
    match op {
      case FramedReceive(f, ev) => LoopIsLater(f, s, ev);
      case UnframedReceive(ev) => OnceIsLater(s, ev);
      case _ =>
    }
  }

  // connect() succeeds while close() waits for the peer, and sets the state as if it did not.
  predicate ConnectsLate(s: Conn, op: Op) {
    op == Connected(false) && s.state == CLOSING
  }

  predicate NeverLate(s: Conn, ops: seq<Op>)
    requires Sensible(ops)
    decreases |ops|
  {
    ops == [] || (!ConnectsLate(s, ops[0]) && NeverLate(Do(s, ops[0]), ops[1..]))
  }

  // Every operation undoes nothing.
  predicate MovesOn(s: Conn, ops: seq<Op>)
    requires Sensible(ops)
    decreases |ops|
  {
    ops == [] || (Later(s, Do(s, ops[0])) && MovesOn(Do(s, ops[0]), ops[1..]))
  }

  /** In every life: the state only moves on, and the ends of the receive half and the abort
      are permanent, at every operation, if and only if no connect() succeeds while close()
      waits. The second holds even then. */
  lemma {:induction false} NeverBackIff(s: Conn, ops: seq<Op>)
    requires Sensible(ops)
    ensures MovesOn(s, ops) <==> NeverLate(s, ops)
    ensures (s.ended ==> DoAll(s, ops).ended) && (s.aborted ==> DoAll(s, ops).aborted)
    decreases |ops|
  {
    if ops != [] {
      OpIsLater(s, ops[0]);
      NeverBackIff(Do(s, ops[0]), ops[1..]);
    }
  }

  // And so it has moved on from any operation to any later one.
  lemma {:induction false} NeverBack(s: Conn, ops: seq<Op>)
    requires Sensible(ops) && NeverLate(s, ops)
    ensures Later(s, DoAll(s, ops))
    decreases |ops|
  {
    if ops != [] {
      OpIsLater(s, ops[0]);
      NeverBack(Do(s, ops[0]), ops[1..]);
    }
  }

  /** A life in which the state moves back: the Connection is closed while it connects. */
  lemma ClosedWhileConnecting(s: Conn)
    requires s.state == ESTABLISHING
    ensures var ops := [CloseCall, Connected(false)];
            && DoAll(s, [CloseCall]).state == CLOSING && DoAll(s, ops).state == ESTABLISHED
            && !NeverLate(s, ops)
  {
    var ops := [CloseCall, Connected(false)];
    assert ops[1..] == [Connected(false)] && [Connected(false)][1..] == [] && [CloseCall][1..] == [];
    var t := Do(s, CloseCall);
    assert DoAll(Do(t, Connected(false)), []) == Do(t, Connected(false));
    assert DoAll(t, [Connected(false)]).state == ESTABLISHED && DoAll(t, []) == t;
  }

  // ---- What ends the use of a Connection ----

  // The receive neither reports a CONNECTION_ERROR nor met a call that closes the Connection.
  predicate Harmless(s: Conn, ev: seq<Event>, step: Step, met: seq<Event>) {
    ev == met + step.rest && !ClosedBy(step.outcome) && !AnyCloses(met, s.aborted) && CloseCalled !in met
  }

  // After the operation an established Connection still is.
  ghost predicate Keeps(s: Conn, op: Op)
    requires op.FramedReceive? ==> Usable(op.f)
  {
    match op
    case Connected(failed) => !failed
    case SendCall => true
    case SendDone(failure) => failure == Bytes.None || (failure == Bytes.Some(LOCAL_ABORT) && !s.aborted)
    case FramedReceive(f, ev) => exists met :: Harmless(s, ev, ReceiveFramed(f, s, ev), met)
    case UnframedReceive(ev) => exists met :: Harmless(s, ev, ReceiveUnframed(s, ev), met)
    case _ => false
  }

  lemma MetOnce(ev: seq<Event>, met: seq<Event>, other: seq<Event>, rest: seq<Event>)
    requires ev == met + rest && ev == other + rest
    ensures met == other
  {
    assert |met| == |other|;
    assert met == ev[..|met|] && other == ev[..|met|];
  }

  lemma LeftEstablished(s: Conn, ev: seq<Event>, step: Step, met: seq<Event>)
    requires s.state == ESTABLISHED && Leaves(s, ev, step, met)
    ensures step.conn.state == ESTABLISHED <==> exists other :: Harmless(s, ev, step, other)
  {
    forall other | Harmless(s, ev, step, other)
      ensures other == met
    {
      MetOnce(ev, met, other, step.rest);
    }
    if step.conn.state == ESTABLISHED {
      assert Harmless(s, ev, step, met);
    }
  }

  lemma KeepsIff(s: Conn, op: Op)
    requires s.state == ESTABLISHED && (op.FramedReceive? ==> Usable(op.f))
    ensures Do(s, op).state == ESTABLISHED <==> Keeps(s, op)
  {
    match op {
      case FramedReceive(f, ev) =>
        if CanReceive(s) {
          var met := FramedLeaves(f, s, ev);
          LeftEstablished(s, ev, ReceiveFramed(f, s, ev), met);
        } else {
          LeavesAtOnce(s, ev, ReceiveFramed(f, s, ev));
          LeftEstablished(s, ev, ReceiveFramed(f, s, ev), []);
        }
      case UnframedReceive(ev) =>
        if CanReceive(s) {
          var met := UnframedLeaves(s, ev);
          LeftEstablished(s, ev, ReceiveUnframed(s, ev), met);
        } else {
          LeavesAtOnce(s, ev, ReceiveUnframed(s, ev));
          LeftEstablished(s, ev, ReceiveUnframed(s, ev), []);
        }
      case _ =>
    }
  }

  ghost predicate AllKeep(s: Conn, ops: seq<Op>)
    requires Sensible(ops)
    decreases |ops|
  {
    ops == [] || (Keeps(s, ops[0]) && AllKeep(Do(s, ops[0]), ops[1..]))
  }

  /** In every life an established Connection stays so if and only if nothing in it closes the
      Connection: no close(), no abort(), no connect() that fails, and no send or receive that
      reports a CONNECTION_ERROR or during which one of these happens. Sends that succeed,
      receives, whatever they return, and operations cancelled without an abort change
      nothing about that. */
  lemma {:induction false} EstablishedIff(s: Conn, ops: seq<Op>)
    requires Sensible(ops) && NeverLate(s, ops) && s.state == ESTABLISHED
    ensures DoAll(s, ops).state == ESTABLISHED <==> AllKeep(s, ops)
    decreases |ops|
  {
    if ops != [] {
      KeepsIff(s, ops[0]);
      OpIsLater(s, ops[0]);
      if Keeps(s, ops[0]) {
        EstablishedIff(Do(s, ops[0]), ops[1..]);
      } else {
        NeverBack(Do(s, ops[0]), ops[1..]);
      }
    }
  }

  /** After close() or abort(), whatever comes in between: every send and receive is refused
      with INVALID_STATE and changes nothing. */
  lemma RefusedAfterClose(s: Conn, ops: seq<Op>, j: nat)
    requires Sensible(ops) && NeverLate(s, ops) && 0 < j < |ops|
    requires ops[0].CloseCall? || ops[0].CloseDone? || ops[0].AbortCall?
    ensures var t := DoAll(s, ops[..j]);
            && !CanSend(t)
            && (ops[j].FramedReceive? ==>
                  ReceiveFramed(ops[j].f, t, ops[j].ev) == Step(t, Failure(RECEIVE_ERROR, INVALID_STATE), [], ops[j].ev))
            && (ops[j].UnframedReceive? ==>
                  ReceiveUnframed(t, ops[j].ev) == Step(t, Failure(RECEIVE_ERROR, INVALID_STATE), [], ops[j].ev))
            && (!ops[0].CloseCall? ==> t.state == CLOSED)
  {
    var t := Do(s, ops[0]);
    assert ops[..j][0] == ops[0] && ops[..j][1..] == ops[1..][..j - 1];
    LatePrefix(t, ops[1..], j - 1);
    NeverBack(t, ops[1..][..j - 1]);
  }

  lemma {:induction false} LatePrefix(s: Conn, ops: seq<Op>, j: nat)
    requires Sensible(ops) && NeverLate(s, ops) && j <= |ops|
    ensures NeverLate(s, ops[..j])
    decreases j
  {
    if j > 0 {
      assert ops[..j][0] == ops[0] && ops[..j][1..] == ops[1..][..j - 1];
      LatePrefix(Do(s, ops[0]), ops[1..], j - 1);
    }
  }

  // ---- The end of the stream ----

  // The receive reports the end of the stream. With a framer an empty body may also be a
  // Message of the peer, after which the receive half is not at its end.
  predicate ReportsEnd(s: Conn, op: Op)
    requires op.FramedReceive? ==> Usable(op.f)
  {
    match op
    case FramedReceive(f, ev) =>
      var step := ReceiveFramed(f, s, ev);
      step.outcome == Received([], true) && step.conn.ended
    case UnframedReceive(ev) => ReceiveUnframed(s, ev).outcome == Received([], true)
    case _ => false
  }

  // Everything received has been delivered when the stream ends, and the framer adds nothing.
  predicate Drained(f: Framer, t: Conn)
    requires Usable(f)
  {
    t.eof && t.buf == [] && !t.open && Parse(f, [], true).NeedMore?
  }

  lemma {:induction false} EndSeen(f: Framer, s: Conn, ev: seq<Event>) returns (i: nat, t: Conn)
    requires Usable(f) && !s.ended
    requires ReceiveLoop(f, s, ev).outcome == Received([], true) && ReceiveLoop(f, s, ev).conn.ended
    ensures i <= |ev| && Reaches(f, s, ev[..i], t) && Drained(f, t)
    decreases |ev|
  {
    if s.eof {
      i, t := 0, s;
    } else {
      i, t := EndSeen(f, After(s, ev[0]), ev[1..]);
      assert ev[..i + 1] == [ev[0]] + ev[1..][..i];
      assert ev[..i + 1][1..] == ev[1..][..i];
      i := i + 1;
    }
  }

  /** A framed receive reports the end of the stream if and only if, after some of what it
      met, the stream has ended with nothing buffered and no Message begun, and the framer
      has nothing to add. */
  lemma EndReportedIff(f: Framer, s: Conn, ev: seq<Event>)
    requires Usable(f) && CanReceive(s)
    ensures ReportsEnd(s, FramedReceive(f, ev))
            <==> exists i: nat, t :: i <= |ev| && Reaches(f, s, ev[..i], t) && Drained(f, t)
  {
    if ReportsEnd(s, FramedReceive(f, ev)) {
      var i, t := EndSeen(f, s, ev);
    }
    forall i: nat, t | i <= |ev| && Reaches(f, s, ev[..i], t) && Drained(f, t)
      ensures ReportsEnd(s, FramedReceive(f, ev))
    {
      assert ev == ev[..i] + ev[i..];
      LoopFrom(f, s, ev[..i], t, ev[i..]);
    }
  }

  function EndReports(s: Conn, ops: seq<Op>): nat
    requires Sensible(ops)
    decreases |ops|
  {
    if ops == [] then 0
    else (if ReportsEnd(s, ops[0]) then 1 else 0) + EndReports(Do(s, ops[0]), ops[1..])
  }

  lemma {:induction false} EndComesEnded(s: Conn, ev: seq<Event>)
    requires ReadOnce(s, ev).outcome == Received([], true)
    requires forall i :: 0 <= i < |ev| && ev[i].Chunk? ==> ev[i].bytes != []
    ensures ReadOnce(s, ev).conn.ended
    decreases |ev|
  {
    if ev != [] && LocalCall(ev[0]) {
      EndComesEnded(After(s, ev[0]), ev[1..]);
    }
  }

  // A read delivers at least a byte.
  predicate NoEmptyReads(ops: seq<Op>) {
    forall i, j :: 0 <= i < |ops| && ops[i].UnframedReceive? && 0 <= j < |ops[i].ev| && ops[i].ev[j].Chunk? ==>
      ops[i].ev[j].bytes != []
  }

  /** The clean end of the stream is reported once at most. */
  lemma {:induction false} EndReportedOnce(s: Conn, ops: seq<Op>)
    requires Sensible(ops) && NoEmptyReads(ops)
    ensures EndReports(s, ops) <= 1
    ensures s.ended ==> EndReports(s, ops) == 0
    decreases |ops|
  {
    if ops != [] {
      OpIsLater(s, ops[0]);
      EndReportedOnce(Do(s, ops[0]), ops[1..]);
      if ops[0].UnframedReceive? && ReportsEnd(s, ops[0]) && CanReceive(s) {
        EndComesEnded(s, ops[0].ev);
      }
    }
  }

  // ---- LOCAL_ABORT ----

  // The operation fails with LOCAL_ABORT.
  predicate SaysAborted(s: Conn, op: Op)
    requires op.FramedReceive? ==> Usable(op.f)
  {
    match op
    case SendDone(failure) => SendEnds(s, failure).1.SendFailed? && SendEnds(s, failure).1.reason == LOCAL_ABORT
    case FramedReceive(f, ev) => IsAbort(ReceiveFramed(f, s, ev).outcome)
    case UnframedReceive(ev) => IsAbort(ReceiveUnframed(s, ev).outcome)
    case _ => false
  }

  predicate IsAbort(o: Outcome) {
    o.Failure? && o.reason == LOCAL_ABORT
  }

  // abort() was called: on its own, or while a receive was pending.
  predicate Calls(op: Op) {
    match op
    case AbortCall => true
    case FramedReceive(_, ev) => AbortCalled in ev
    case UnframedReceive(ev) => AbortCalled in ev
    case _ => false
  }

  lemma AfterAborts(s: Conn, e: Event)
    requires Continues(e)
    ensures After(s, e).aborted ==> s.aborted || e == AbortCalled
  {
  }

  lemma ReadFailsAborts(s: Conn, e: Event, more: seq<Event>)
    requires ReadFailed(e)
    ensures ReadFails(s, e, more).conn.aborted == s.aborted
    ensures IsAbort(ReadFails(s, e, more).outcome) ==> s.aborted
  {
  }

  lemma {:induction false} LoopAborts(f: Framer, s: Conn, ev: seq<Event>)
    requires Usable(f)
    ensures ReceiveLoop(f, s, ev).conn.aborted ==> s.aborted || AbortCalled in ev
    ensures IsAbort(ReceiveLoop(f, s, ev).outcome) ==> ReceiveLoop(f, s, ev).conn.aborted
    decreases |ev|, if s.eof then 0 else 1
  {
    if Parse(f, s.buf, s.eof).NeedMore? && !s.eof && ev != [] {
      if Continues(ev[0]) {
        AfterAborts(s, ev[0]);
        LoopAborts(f, After(s, ev[0]), ev[1..]);
      } else {
        ReadFailsAborts(s, ev[0], ev[1..]);
      }
    }
  }

  lemma {:induction false} OnceAborts(s: Conn, ev: seq<Event>)
    ensures ReadOnce(s, ev).conn.aborted ==> s.aborted || AbortCalled in ev
    ensures IsAbort(ReadOnce(s, ev).outcome) ==> ReadOnce(s, ev).conn.aborted
    decreases |ev|
  {
    if ev != [] && LocalCall(ev[0]) {
      OnceAborts(After(s, ev[0]), ev[1..]);
    }
  }

  /** A send or receive reports LOCAL_ABORT only if abort() was called before or while it was
      pending. */
  lemma {:induction false} AbortOnlyAfterAbort(s: Conn, ops: seq<Op>, i: nat)
    requires Sensible(ops) && i < |ops| && !s.aborted
    requires SaysAborted(DoAll(s, ops[..i]), ops[i])
    ensures exists k :: 0 <= k <= i && Calls(ops[k])
  {
    AbortSeen(s, ops[..i]);
    var t := DoAll(s, ops[..i]);
    if !t.aborted {
      match ops[i] {
        case FramedReceive(f, ev) => LoopAborts(f, t, ev);
        case UnframedReceive(ev) => OnceAborts(t, ev);
        case _ =>
      }
      assert Calls(ops[i]);
    } else {
      var k :| 0 <= k < i && Calls(ops[..i][k]);
      assert ops[..i][k] == ops[k];
    }
  }

  lemma {:induction false} AbortSeen(s: Conn, ops: seq<Op>)
    requires Sensible(ops) && !s.aborted
    ensures DoAll(s, ops).aborted ==> exists k :: 0 <= k < |ops| && Calls(ops[k])
    decreases |ops|
  {
    if ops != [] {
      var t := Do(s, ops[0]);
      if t.aborted {
        match ops[0] {
          case FramedReceive(f, ev) => LoopAborts(f, s, ev);
          case UnframedReceive(ev) => OnceAborts(s, ev);
          case _ =>
        }
        assert Calls(ops[0]);
      } else {
        AbortSeen(t, ops[1..]);
        if DoAll(s, ops).aborted {
          var k :| 0 <= k < |ops[1..]| && Calls(ops[1..][k]);
          assert ops[k + 1] == ops[1..][k];
        }
      }
    }
  }
}
