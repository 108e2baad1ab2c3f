/** A byte stream received without records: by a Connection that has no framer, or a framer
    that passes everything through. */
module PlainStream {
  import opened Bytes
  import opened Framing
  import opened Receive
  import opened Streams
  import opened TapsApi

  // How the end of a stream is reported.
  function EndResult(ending: Event): Outcome {
    if ending.Truncated? then Failure(RECEIVE_ERROR, PROTOCOL_FAILED)
    else if ending.Failed? then Failure(CONNECTION_ERROR, ending.reason)
    else Received([], true)
  }

  // ---- Without a framer ----

  // What the reads brought, one by one.
  function Parts(ev: seq<Event>): seq<seq<Byte>> {
    if ev == [] then []
    else if ev[0].Chunk? then [ev[0].bytes] + Parts(ev[1..])
    else Parts(ev[1..])
  }

  // Each is a Message that does not end, and then comes the end of the one long Message.
  function PartReference(parts: seq<seq<Byte>>, ending: Event): seq<Outcome> {
    if parts == [] then [EndResult(ending)] else [Received(parts[0], false)] + PartReference(parts[1..], ending)
  }

  lemma {:induction false} PartsAreRead(ev: seq<Event>)
    ensures Concat(Parts(ev)) == Read(ev)
  {
    if ev != [] {
      PartsAreRead(ev[1..]);
      if ev[0].Chunk? {
        assert Parts(ev)[1..] == Parts(ev[1..]);
      }
    }
  }

  lemma {:induction false} PartsProceed(s: Conn, ev: seq<Event>, ending: Event, n: nat)
    requires Ending(ending) && CanReceive(s) && !s.eof && Delivers(ev, ending)
    ensures Proceeds(None, s, ev, PartReference(Parts(ev), ending), n)
    decreases n
  {
    if n > 0 {
      var step, more := ReceiveUnframed(s, ev), ev[1..];
      assert step.rest == more;
      if |ev| == 1 {
        assert ev == [ending] && Parts(ev) == [] by {
          assert ev[1..] == [];
        }
        EndProceeds(s, ending, n);
      } else {
        PartsProceed(step.conn, more, ending, n - 1);
        if ev[0].Chunk? {
          assert Parts(ev) == [ev[0].bytes] + Parts(more);
          assert PartReference(Parts(ev), ending)[1..] == PartReference(Parts(more), ending);
        }
      }
    }
  }

  // The read that meets the end is the last one.
  lemma EndRead(s: Conn, ending: Event)
    requires Ending(ending) && CanReceive(s) && !s.eof
    ensures var step := ReceiveUnframed(s, [ending]);
            step.outcome == EndResult(ending) && step.rest == [] && !CanReceive(step.conn)
  {
    assert [ending][1..] == [];
    if ending.Eof? {
      assert ReadOnce(s, [ending]) == Step(s.(eof := true, ended := true), Received([], true), [], []);
    } else {
      assert ReadOnce(s, [ending]) == ReadFails(s, ending, []);
    }
  }

  lemma NothingOwed(mode: Option<Framer>, s: Conn, ev: seq<Event>, n: nat)
    requires UsableIn(mode) && !CanReceive(s)
    ensures Proceeds(mode, s, ev, [], n)
  {
  }

  lemma EndProceeds(s: Conn, ending: Event, n: nat)
    requires Ending(ending) && CanReceive(s) && !s.eof && n > 0
    ensures Proceeds(None, s, [ending], [EndResult(ending)], n)
  {
    EndRead(s, ending);
    var step := ReceiveUnframed(s, [ending]);
    NothingOwed(None, step.conn, step.rest, n - 1);
    assert [EndResult(ending)][1..] == [];
    assert Exhaustions([ending]) == 0 + Exhaustions([ending][1..]);
  }

  /** Without a framer: n receives return what the reads brought, each read as a part of one
      Message that has not ended, in order; then the end, once: as an empty last part, or as
      the error; and then refusals. Failures for lack of a block come on top and change
      nothing. The parts together are the stream. */
  lemma UnframedStream(s: Conn, ev: seq<Event>, ending: Event, n: nat)
    requires Ending(ending) && CanReceive(s) && !s.eof && Delivers(ev, ending)
    ensures Fulfils(Receives(None, s, ev, n), PartReference(Parts(ev), ending), n, Exhaustions(ev))
    ensures Concat(Parts(ev)) == Read(ev)
  {
    PartsProceed(s, ev, ending, n);
    ProceedingFulfils(None, s, ev, PartReference(Parts(ev), ending), n);
    PartsAreRead(ev);
  }

  // ---- With the Passthrough framer ----

  // The whole stream is one Message, if it has any bytes and ends as it should.
  function WholeReference(t: seq<Byte>, ending: Event): seq<Outcome> {
    if ending.Eof? && t != [] then [Received(t, true), Received([], true)] else [EndResult(ending)]
  }

  // What one call may do.
  predicate WholeAdvances(s: Conn, ev: seq<Event>, ending: Event, step: Step) {
    var owed := WholeReference(s.buf + Read(ev), ending);
    && Gives(step, ev, owed)
    && !step.conn.open
    && (step.outcome == NoBlock ==>
          Receiving(step.conn, step.rest, ending) && step.conn.buf + Read(step.rest) == s.buf + Read(ev))
    && (step.outcome != NoBlock && |owed| == 1 ==> !CanReceive(step.conn))
    && (step.outcome != NoBlock && |owed| == 2 ==>
          Receiving(step.conn, step.rest, ending) && step.conn.buf + Read(step.rest) == [])
  }

  lemma WholeAtEof(gather: bool, s: Conn)
    requires CanReceive(s) && !s.open && s.eof && |s.buf| < SIZE_MODULUS
    ensures WholeAdvances(s, [], Eof, ReceiveLoop(Passthrough(gather), s, []))
  {
    assert s.buf + Read([]) == s.buf;
    assert s.buf[0..|s.buf|] == s.buf && s.buf[|s.buf|..] == [];
  }

  lemma {:induction false} WholeCall(gather: bool, s: Conn, ev: seq<Event>, ending: Event)
    requires Ending(ending) && Receiving(s, ev, ending) && !s.open && |s.buf + Read(ev)| < SIZE_MODULUS
    ensures WholeAdvances(s, ev, ending, ReceiveLoop(Passthrough(gather), s, ev))
    decreases |ev|
  {
    if s.eof {
      assert s.buf + Read(ev) == s.buf;
      WholeAtEof(gather, s);
    } else if |ev| == 1 {
      assert ev[1..] == [] && s.buf + Read(ev) == s.buf;
      if ending.Eof? {
        WholeAtEof(gather, s.(eof := true));
      }
    } else if ev[0].Chunk? {
      ConcatAssociative(s.buf, ev[0].bytes, Read(ev[1..]));
      WholeCall(gather, s.(buf := s.buf + ev[0].bytes), ev[1..], ending);
    }
  }

  lemma {:induction false} WholeProceeds(gather: bool, s: Conn, ev: seq<Event>, ending: Event, n: nat)
    requires Ending(ending) && Receiving(s, ev, ending) && !s.open && |s.buf + Read(ev)| < SIZE_MODULUS
    ensures Proceeds(Some(Passthrough(gather)), s, ev, WholeReference(s.buf + Read(ev), ending), n)
    decreases n
  {
    if n > 0 {
      WholeCall(gather, s, ev, ending);
      var step := ReceiveLoop(Passthrough(gather), s, ev);
      if CanReceive(step.conn) {
        WholeProceeds(gather, step.conn, step.rest, ending, n - 1);
      }
    }
  }

  /** With the Passthrough framer: however the stream is cut into reads, it is one complete
      Message, after which comes one empty end, and then refusals. A stream without bytes is
      its end alone; one that is cut off or fails is the error alone. */
  lemma PassthroughStream(gather: bool, s: Conn, ev: seq<Event>, ending: Event, n: nat)
    requires Ending(ending) && Receiving(s, ev, ending) && !s.open && |s.buf + Read(ev)| < SIZE_MODULUS
    ensures Fulfils(Receives(Some(Passthrough(gather)), s, ev, n), WholeReference(s.buf + Read(ev), ending), n,
                    Exhaustions(ev))
  {
    WholeProceeds(gather, s, ev, ending, n);
    ProceedingFulfils(Some(Passthrough(gather)), s, ev, WholeReference(s.buf + Read(ev), ending), n);
  }
}
