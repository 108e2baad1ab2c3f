/** Length-prefixed records over a byte stream, however the stream is cut into reads: what
    successive receives return, for whole streams and for streams that end anywhere. */
module FramedStream {
  import opened Bytes
  import opened LengthCodec
  import opened Framing
  import opened Receive
  import opened Streams
  import opened TapsApi

  // ---- The reference: what a byte stream means, with no reads in sight ----

  // The first record of t is all there.
  predicate Complete(width: nat, order: Endian, t: seq<Byte>) {
    width <= |t| && width + Announced(width, order, t) <= |t|
  }

  function RecordEnd(width: nat, order: Endian, t: seq<Byte>): nat
    requires Complete(width, order, t)
  {
    width + Announced(width, order, t)
  }

  // The results of receiving the stream t that ends with `ending`: its complete records,
  // and then its end. `open` says that a partial Message came before.
  function Reference(width: nat, order: Endian, t: seq<Byte>, open: bool, ending: Event): seq<Outcome>
    requires width >= 1
    decreases |t|
  {
    if Complete(width, order, t) then
      var end := RecordEnd(width, order, t);
      [Received(t[width..end], true)] + Reference(width, order, t[end..], false, ending)
    else EndReference(width, t, open, ending)
  }

  // What the last bytes, which are not a complete record, and the end are reported as.
  function EndReference(width: nat, t: seq<Byte>, open: bool, ending: Event): seq<Outcome> {
    if ending.Truncated? then [Failure(RECEIVE_ERROR, PROTOCOL_FAILED)]
    else if ending.Failed? then [Failure(CONNECTION_ERROR, ending.reason)]
    else if |t| > width then [Received(t[width..], false), Deframing]
    else if |t| > 0 || open then [Deframing]
    else [Received([], true)]
  }

  // No record of the stream announces a size beyond std::size_t.
  predicate Sane(width: nat, order: Endian, t: seq<Byte>)
    requires width >= 1
    decreases |t|
  {
    && !Overflows(width, order, t)
    && (Complete(width, order, t) ==> Sane(width, order, t[RecordEnd(width, order, t)..]))
  }

  // ---- One call ----

  // What the Connection still has to return.
  function Owed(width: nat, order: Endian, s: Conn, ev: seq<Event>, ending: Event): seq<Outcome>
    requires width >= 1
  {
    Reference(width, order, s.buf + Read(ev), s.open, ending)
  }

  // What one call may do: fail for lack of a block and change nothing, or return the
  // next result; after the last one the Connection can receive no more.
  predicate Advances(width: nat, order: Endian, s: Conn, ev: seq<Event>, ending: Event, step: Step)
    requires width >= 1
  {
    var owed := Owed(width, order, s, ev, ending);
    if step.outcome == NoBlock then
      && Receiving(step.conn, step.rest, ending)
      && Exhaustions(step.rest) + 1 == Exhaustions(ev)
      && step.conn.buf + Read(step.rest) == s.buf + Read(ev)
      && step.conn.open == s.open
    else
      && owed != [] && step.outcome == owed[0] && Exhaustions(step.rest) == Exhaustions(ev)
      && (if |owed| == 1 then !CanReceive(step.conn)
          else
            && Receiving(step.conn, step.rest, ending)
            && Owed(width, order, step.conn, step.rest, ending) == owed[1..]
            && |step.conn.buf + Read(step.rest)| <= |s.buf + Read(ev)|
            && Sane(width, order, step.conn.buf + Read(step.rest)))
  }

  // A header in the buffer is the header of the stream.
  lemma SameHeader(width: nat, order: Endian, buf: seq<Byte>, more: seq<Byte>)
    requires width <= |buf|
    ensures Announced(width, order, buf + more) == Announced(width, order, buf)
  {
    assert (buf + more)[..width] == buf[..width];
  }

  lemma {:induction false} CallAdvances(width: nat, order: Endian, s: Conn, ev: seq<Event>, ending: Event)
    requires 1 <= width <= 8 && Ending(ending) && Receiving(s, ev, ending)
    requires Sane(width, order, s.buf + Read(ev))
    ensures Advances(width, order, s, ev, ending, ReceiveLoop(LengthPrefixed(width, order), s, ev))
    decreases |ev|, if s.eof then 0 else 1
  {
    var f := LengthPrefixed(width, order);
    if width <= |s.buf| {
      SameHeader(width, order, s.buf, Read(ev));
    }
    if Complete(width, order, s.buf) {
      RecordArrived(width, order, s, ev, ending);
    } else if s.eof {
      StreamEnded(width, order, s, ending);
    } else {
      ReadAdvances(width, order, s, ev, ending);
    }
  }

  // The next record is in the buffer.
  lemma RecordArrived(width: nat, order: Endian, s: Conn, ev: seq<Event>, ending: Event)
    requires 1 <= width <= 8 && Ending(ending) && Receiving(s, ev, ending)
    requires Sane(width, order, s.buf + Read(ev))
    requires Complete(width, order, s.buf)
    ensures Advances(width, order, s, ev, ending, ReceiveLoop(LengthPrefixed(width, order), s, ev))
  {
    FirstRecord(width, order, s.buf, Read(ev), s.open, ending);
    RecordEmitted(width, order, s, ev);
    ReferenceNotEmpty(width, order, s.buf[RecordEnd(width, order, s.buf)..] + Read(ev), false, ending);
  }

  lemma FirstRecord(width: nat, order: Endian, buf: seq<Byte>, more: seq<Byte>, open: bool, ending: Event)
    requires width >= 1 && Complete(width, order, buf)
    ensures var end := RecordEnd(width, order, buf);
            && Reference(width, order, buf + more, open, ending)
               == [Received(buf[width..end], true)] + Reference(width, order, buf[end..] + more, false, ending)
            && (Sane(width, order, buf + more) ==> Sane(width, order, buf[end..] + more) && end < SIZE_MODULUS)
  {
    FirstRecordSplits(width, order, buf, more);
  }

  lemma FirstRecordSplits(width: nat, order: Endian, buf: seq<Byte>, more: seq<Byte>)
    requires width >= 1 && Complete(width, order, buf)
    ensures var end := RecordEnd(width, order, buf);
            && Complete(width, order, buf + more) && RecordEnd(width, order, buf + more) == end
            && (buf + more)[width..end] == buf[width..end] && (buf + more)[end..] == buf[end..] + more
  {
    SameHeader(width, order, buf, more);
    DropConcat(buf, more, RecordEnd(width, order, buf));
  }

  lemma RecordEmitted(width: nat, order: Endian, s: Conn, ev: seq<Event>)
    requires 1 <= width <= 8 && Complete(width, order, s.buf) && RecordEnd(width, order, s.buf) < SIZE_MODULUS
    ensures var end := RecordEnd(width, order, s.buf);
            ReceiveLoop(LengthPrefixed(width, order), s, ev)
            == Step(s.(buf := s.buf[end..], open := false), Received(s.buf[width..end], true), s.buf[..width], ev)
  {
  }

  lemma ReferenceNotEmpty(width: nat, order: Endian, t: seq<Byte>, open: bool, ending: Event)
    requires width >= 1
    ensures Reference(width, order, t, open, ending) != []
  {
  }

  // All bytes are in the buffer, they are no complete record, and the stream has ended.
  lemma StreamEnded(width: nat, order: Endian, s: Conn, ending: Event)
    requires 1 <= width <= 8 && s.eof && Receiving(s, [], ending)
    requires Sane(width, order, s.buf)
    requires !Complete(width, order, s.buf)
    ensures Advances(width, order, s, [], ending, ReceiveLoop(LengthPrefixed(width, order), s, []))
  {
    assert s.buf + Read([]) == s.buf;
    var owed := EndReference(width, s.buf, s.open, ending);
    if |s.buf| > width {
      PartialAtEnd(width, order, s);
      assert owed[1..] == [Deframing];
    } else {
      NothingParsesAtEnd(width, order, s);
      assert |owed| == 1;
    }
  }

  lemma PartialAtEnd(width: nat, order: Endian, s: Conn)
    requires 1 <= width <= 8 && s.eof
    requires width < |s.buf| && Sane(width, order, s.buf) && !Complete(width, order, s.buf)
    ensures var step := ReceiveLoop(LengthPrefixed(width, order), s, []);
            step == Step(s.(buf := [], open := true), Received(s.buf[width..], false), s.buf[..width], [])
            && step.conn.buf + Read(step.rest) == []
  {
    assert s.buf[width..|s.buf|] == s.buf[width..] && s.buf[|s.buf|..] == [];
  }

  lemma NothingParsesAtEnd(width: nat, order: Endian, s: Conn)
    requires 1 <= width <= 8 && s.eof
    requires |s.buf| <= width && Sane(width, order, s.buf) && !Complete(width, order, s.buf)
    ensures ReceiveLoop(LengthPrefixed(width, order), s, []) == AtEnd(s, [])
  {
  }

  // The first record is not all there, and its size fits: parse() asks for more.
  lemma AsksForMore(width: nat, order: Endian, buf: seq<Byte>, more: seq<Byte>)
    requires 1 <= width && Sane(width, order, buf + more) && !Complete(width, order, buf)
    ensures ParseRecord(width, order, buf, false).NeedMore?
  {
    if width <= |buf| {
      SameHeader(width, order, buf, more);
    }
  }

  // The loop reads on.
  lemma {:induction false} ReadAdvances(width: nat, order: Endian, s: Conn, ev: seq<Event>, ending: Event)
    requires 1 <= width <= 8 && Ending(ending) && Receiving(s, ev, ending) && !s.eof
    requires Sane(width, order, s.buf + Read(ev))
    requires !Complete(width, order, s.buf)
    ensures Advances(width, order, s, ev, ending, ReceiveLoop(LengthPrefixed(width, order), s, ev))
    decreases |ev|, 0
  {
    AsksForMore(width, order, s.buf, Read(ev));
    if |ev| == 1 {
      EndArrives(width, order, s, ev, ending);
    } else if ev[0].Chunk? {
      ConcatAssociative(s.buf, ev[0].bytes, Read(ev[1..]));
      CallAdvances(width, order, s.(buf := s.buf + ev[0].bytes), ev[1..], ending);
    }
  }

  lemma {:induction false} EndArrives(width: nat, order: Endian, s: Conn, ev: seq<Event>, ending: Event)
    requires 1 <= width <= 8 && Ending(ending) && CanReceive(s) && !s.eof && ev == [ending]
    requires Sane(width, order, s.buf + Read(ev))
    requires !Complete(width, order, s.buf)
    ensures Advances(width, order, s, ev, ending, ReceiveLoop(LengthPrefixed(width, order), s, ev))
    decreases |ev|, 0
  {
    AsksForMore(width, order, s.buf, Read(ev));
    assert ev[1..] == [] && s.buf + Read(ev) == s.buf;
    if ending.Eof? {
      StreamEnded(width, order, s.(eof := true), ending);
    }
  }

  // ---- Successive calls ----

  lemma {:induction false} ProceedsThroughOwed(
    width: nat, order: Endian, s: Conn, ev: seq<Event>, ending: Event, n: nat)
    requires 1 <= width <= 8 && Ending(ending) && Receiving(s, ev, ending)
    requires Sane(width, order, s.buf + Read(ev))
    ensures Proceeds(Some(LengthPrefixed(width, order)), s, ev, Owed(width, order, s, ev, ending), n)
    decreases n
  {
    ReferenceNotEmpty(width, order, s.buf + Read(ev), s.open, ending);
    if n > 0 {
      CallAdvances(width, order, s, ev, ending);
      var step := ReceiveLoop(LengthPrefixed(width, order), s, ev);
      if CanReceive(step.conn) {
        ProceedsThroughOwed(width, order, step.conn, step.rest, ending, n - 1);
      }
    }
  }

  /** Whatever the reads and the failed attempts between them: n calls return the results
      the stream has by the reference, in order, and then only refusals. Failures for lack
      of a block come on top and change nothing. The Connection can receive exactly until
      the last result is out. */
  lemma FragmentationDoesNotMatter(width: nat, order: Endian, s: Conn, ev: seq<Event>, ending: Event, n: nat)
    requires 1 <= width <= 8 && Ending(ending) && Receiving(s, ev, ending)
    requires Sane(width, order, s.buf + Read(ev))
    ensures Fulfils(Receives(Some(LengthPrefixed(width, order)), s, ev, n),
                    Owed(width, order, s, ev, ending), n, Exhaustions(ev))
  {
    ProceedsThroughOwed(width, order, s, ev, ending, n);
    ProceedingFulfils(Some(LengthPrefixed(width, order)), s, ev, Owed(width, order, s, ev, ending), n);
  }

  // ---- Round trip ----

  // The results for bodies that all arrive complete, and a clean end.
  function Delivered(bodies: seq<seq<Byte>>): seq<Outcome> {
    if bodies == [] then [Received([], true)] else [Received(bodies[0], true)] + Delivered(bodies[1..])
  }

  // Every body's size can be written in the length field. Messages are in memory, so
  // their size is below 2^63.
  predicate AllWritable(width: nat, bodies: seq<seq<Byte>>) {
    forall i :: 0 <= i < |bodies| ==> |bodies[i]| < Pow256(width)
  }

  predicate InMemory(bodies: seq<seq<Byte>>) {
    forall i :: 0 <= i < |bodies| ==> |bodies[i]| < 0x8000_0000_0000_0000
  }

  lemma FirstOfWire(width: nat, order: Endian, bodies: seq<seq<Byte>>, cut: seq<Byte>)
    requires 1 <= width <= 8 && bodies != [] && |bodies[0]| < Pow256(width)
    ensures var t := Record(width, order, bodies[0]) + cut;
            && Complete(width, order, t) && RecordEnd(width, order, t) == width + |bodies[0]|
            && t[width..width + |bodies[0]|] == bodies[0] && t[width + |bodies[0]|..] == cut
  {
    AnnouncedByRecord(width, order, bodies[0], cut);
  }

  /** Messages that fit the length field come back as they were sent, in order, each
      complete, and then the end of the stream. */
  lemma {:induction false} WireReferenceIsDelivered(width: nat, order: Endian, bodies: seq<seq<Byte>>)
    requires 1 <= width <= 8 && AllWritable(width, bodies) && InMemory(bodies)
    ensures Reference(width, order, Wire(width, order, bodies), false, Eof) == Delivered(bodies)
    ensures Sane(width, order, Wire(width, order, bodies))
  {
    if bodies != [] {
      FirstOfWire(width, order, bodies, Wire(width, order, bodies[1..]));
      WireReferenceIsDelivered(width, order, bodies[1..]);
    }
  }

  /** And only those do: with one Message too large for the field, the stream means
      something else. */
  lemma {:induction false} RoundTripIffWritable(width: nat, order: Endian, bodies: seq<seq<Byte>>)
    requires 1 <= width <= 8 && InMemory(bodies)
    ensures Reference(width, order, Wire(width, order, bodies), false, Eof) == Delivered(bodies)
            <==> AllWritable(width, bodies)
  {
    if AllWritable(width, bodies) {
      WireReferenceIsDelivered(width, order, bodies);
    } else if |bodies[0]| < Pow256(width) {
      RoundTripOfRest(width, order, bodies);
      RoundTripIffWritable(width, order, bodies[1..]);
      assert !AllWritable(width, bodies[1..]);
    } else {
      OversizeIsCutShort(width, order, bodies[0], Wire(width, order, bodies[1..]));
      assert Delivered(bodies)[0] == Received(bodies[0], true);
    }
  }

  lemma RoundTripOfRest(width: nat, order: Endian, bodies: seq<seq<Byte>>)
    requires 1 <= width <= 8 && bodies != [] && |bodies[0]| < Pow256(width)
    ensures Reference(width, order, Wire(width, order, bodies), false, Eof) == Delivered(bodies)
            ==> Reference(width, order, Wire(width, order, bodies[1..]), false, Eof) == Delivered(bodies[1..])
  {
    var rest := Reference(width, order, Wire(width, order, bodies[1..]), false, Eof);
    FirstOfWire(width, order, bodies, Wire(width, order, bodies[1..]));
    assert Reference(width, order, Wire(width, order, bodies), false, Eof) == [Received(bodies[0], true)] + rest;
    assert ([Received(bodies[0], true)] + rest)[1..] == rest;
    assert Delivered(bodies)[1..] == Delivered(bodies[1..]);
  }

  lemma OversizeIsCutShort(width: nat, order: Endian, body: seq<Byte>, more: seq<Byte>)
    requires 1 <= width <= 8 && |body| >= Pow256(width)
    ensures var outcomes := Reference(width, order, Record(width, order, body) + more, false, Eof);
            outcomes != [] && outcomes[0].Received? && |outcomes[0].body| < |body|
  {
    AnnouncedByRecord(width, order, body, more);
    ModBelow(|body|, Pow256(width));
  }

  lemma ModBelow(n: nat, d: nat)
    requires 0 < d <= n
    ensures n % d < n
  {
  }

  /** The framed round trip: however the wire bytes of Messages that fit are cut into
      reads, successive receives return the Messages, each complete and in order, then one
      empty end of stream, then refusals. */
  lemma FramedRoundTrip(width: nat, order: Endian, bodies: seq<seq<Byte>>, ev: seq<Event>, n: nat)
    requires 1 <= width <= 8 && AllWritable(width, bodies) && InMemory(bodies)
    requires Delivers(ev, Eof) && Read(ev) == Wire(width, order, bodies)
    ensures Fulfils(Receives(Some(LengthPrefixed(width, order)), Fresh, ev, n), Delivered(bodies), n, Exhaustions(ev))
  {
    WireReferenceIsDelivered(width, order, bodies);
    assert Fresh.buf + Read(ev) == Read(ev);
    FragmentationDoesNotMatter(width, order, Fresh, ev, Eof, n);
  }

  // ---- A stream that ends anywhere ----

  // The results when only the first k bytes of the wire arrive: the Messages whose record
  // is among them, then what arrived of the next body as a Message that does not end, and
  // an error unless the cut is between two records.
  function DeliveredUpTo(width: nat, bodies: seq<seq<Byte>>, k: nat): seq<Outcome> {
    if bodies == [] then [Received([], true)]
    else if k >= width + |bodies[0]| then
      [Received(bodies[0], true)] + DeliveredUpTo(width, bodies[1..], k - width - |bodies[0]|)
    else if k > width then [Received(bodies[0][..k - width], false), Deframing]
    else if k > 0 then [Deframing]
    else [Received([], true)]
  }

  // The cut after k bytes is between two records.
  predicate AtBoundary(width: nat, bodies: seq<seq<Byte>>, k: nat) {
    k == 0 || (bodies != [] && k >= width + |bodies[0]| && AtBoundary(width, bodies[1..], k - width - |bodies[0]|))
  }

  function Deframings(outcomes: seq<Outcome>): nat {
    if outcomes == [] then 0 else (if outcomes[0] == Deframing then 1 else 0) + Deframings(outcomes[1..])
  }

  lemma {:induction false} CutWireReference(width: nat, order: Endian, bodies: seq<seq<Byte>>, k: nat)
    requires 1 <= width <= 8 && AllWritable(width, bodies) && InMemory(bodies)
    requires k <= |Wire(width, order, bodies)|
    ensures Reference(width, order, Wire(width, order, bodies)[..k], false, Eof) == DeliveredUpTo(width, bodies, k)
    ensures Sane(width, order, Wire(width, order, bodies)[..k])
  {
    if bodies == [] {
      EmptyStream(width, order);
    } else if k >= width + |bodies[0]| {
      CutWireReference(width, order, bodies[1..], k - width - |bodies[0]|);
      CutLater(width, order, bodies, k);
    } else {
      CutInsideFirst(width, order, bodies, k);
    }
  }

  // The cut is behind the first record.
  lemma CutLater(width: nat, order: Endian, bodies: seq<seq<Byte>>, k: nat)
    requires 1 <= width <= 8 && bodies != [] && |bodies[0]| < Pow256(width) && |bodies[0]| < 0x8000_0000_0000_0000
    requires width + |bodies[0]| <= k <= |Wire(width, order, bodies)|
    requires var cut, next := Wire(width, order, bodies[1..])[..k - width - |bodies[0]|], k - width - |bodies[0]|;
             Reference(width, order, cut, false, Eof) == DeliveredUpTo(width, bodies[1..], next)
             && Sane(width, order, cut)
    ensures Reference(width, order, Wire(width, order, bodies)[..k], false, Eof) == DeliveredUpTo(width, bodies, k)
    ensures Sane(width, order, Wire(width, order, bodies)[..k])
  {
    CutInRest(width, order, bodies, k);
  }

  lemma EmptyStream(width: nat, order: Endian)
    requires 1 <= width <= 8
    ensures Reference(width, order, [], false, Eof) == [Received([], true)] && Sane(width, order, [])
  {
  }

  lemma CutInRest(width: nat, order: Endian, bodies: seq<seq<Byte>>, k: nat)
    requires 1 <= width <= 8 && bodies != [] && |bodies[0]| < Pow256(width) && |bodies[0]| < 0x8000_0000_0000_0000
    requires width + |bodies[0]| <= k <= |Wire(width, order, bodies)|
    ensures var t, cut := Wire(width, order, bodies)[..k], Wire(width, order, bodies[1..])[..k - width - |bodies[0]|];
            && Reference(width, order, t, false, Eof)
               == [Received(bodies[0], true)] + Reference(width, order, cut, false, Eof)
            && (Sane(width, order, cut) ==> Sane(width, order, t))
  {
    WireTaken(width, order, bodies, k);
    CutBeyondFirst(width, order, bodies, Wire(width, order, bodies[1..])[..k - width - |bodies[0]|]);
  }

  lemma WireTaken(width: nat, order: Endian, bodies: seq<seq<Byte>>, k: nat)
    requires bodies != [] && width + |bodies[0]| <= k <= |Wire(width, order, bodies)|
    ensures Wire(width, order, bodies)[..k]
         == Record(width, order, bodies[0]) + Wire(width, order, bodies[1..])[..k - width - |bodies[0]|]
  {
    TakeConcat(Record(width, order, bodies[0]), Wire(width, order, bodies[1..]), k);
  }

  lemma CutInsideFirst(width: nat, order: Endian, bodies: seq<seq<Byte>>, k: nat)
    requires 1 <= width <= 8 && bodies != [] && |bodies[0]| < Pow256(width) && |bodies[0]| < 0x8000_0000_0000_0000
    requires k < width + |bodies[0]|
    ensures var t := (Record(width, order, bodies[0]) + Wire(width, order, bodies[1..]))[..k];
            Reference(width, order, t, false, Eof) == DeliveredUpTo(width, bodies, k) && Sane(width, order, t)
  {
    TakeConcat(Record(width, order, bodies[0]), Wire(width, order, bodies[1..]), k);
    CutRecord(width, order, bodies[0], k);
  }

  lemma CutBeyondFirst(width: nat, order: Endian, bodies: seq<seq<Byte>>, cut: seq<Byte>)
    requires 1 <= width <= 8 && bodies != [] && |bodies[0]| < Pow256(width) && |bodies[0]| < 0x8000_0000_0000_0000
    ensures var t := Record(width, order, bodies[0]) + cut;
            && Reference(width, order, t, false, Eof)
               == [Received(bodies[0], true)] + Reference(width, order, cut, false, Eof)
            && (Sane(width, order, cut) ==> Sane(width, order, t))
  {
    FirstOfWire(width, order, bodies, cut);
  }

  lemma CutRecord(width: nat, order: Endian, body: seq<Byte>, k: nat)
    requires 1 <= width <= 8 && |body| < Pow256(width) && |body| < 0x8000_0000_0000_0000 && k < width + |body|
    ensures var t := Record(width, order, body)[..k];
            && !Complete(width, order, t) && Sane(width, order, t)
            && (k > width ==> t[width..] == body[..k - width])
  {
    if k >= width {
      var t := Record(width, order, body)[..k];
      TakeConcat(Header(width, order, |body|), body, k);
      assert t == Header(width, order, |body|) + body[..k - width];
      DropConcat(Header(width, order, |body|), body[..k - width], width);
      assert t[..width] == (Record(width, order, body) + [])[..width];
      AnnouncedByRecord(width, order, body, []);
    }
  }

  lemma {:induction false} OneErrorUnlessAtBoundary(width: nat, order: Endian, bodies: seq<seq<Byte>>, k: nat)
    requires width >= 1 && k <= |Wire(width, order, bodies)|
    ensures Deframings(DeliveredUpTo(width, bodies, k)) == if AtBoundary(width, bodies, k) then 0 else 1
  {
    if bodies != [] {
      if k >= width + |bodies[0]| {
        var next := k - width - |bodies[0]|;
        OneErrorUnlessAtBoundary(width, order, bodies[1..], next);
        DeframingsCons(Received(bodies[0], true), DeliveredUpTo(width, bodies[1..], next));
      } else {
        DeframingsCons(Received(bodies[0][..if k > width then k - width else 0], false), [Deframing]);
        DeframingsCons(Deframing, []);
        DeframingsCons(Received([], true), []);
        assert [Received(bodies[0][..if k > width then k - width else 0], false)] + [Deframing]
            == [Received(bodies[0][..if k > width then k - width else 0], false), Deframing];
      }
    }
  }

  lemma DeframingsCons(o: Outcome, rest: seq<Outcome>)
    ensures Deframings([o] + rest) == (if o == Deframing then 1 else 0) + Deframings(rest)
    ensures rest == [] ==> [o] + rest == [o]
  {
    assert ([o] + rest)[1..] == rest;
  }

  /** Truncation at any byte, whatever the fragmentation: exactly the complete records
      come, then the part of the last body that arrived as a Message with end_of_message
      false, then DEFRAMING_FAILED, exactly once, if and only if the cut is not between two
      records. */
  lemma TruncationIsClassified(width: nat, order: Endian, bodies: seq<seq<Byte>>, k: nat, ev: seq<Event>, n: nat)
    requires 1 <= width <= 8 && AllWritable(width, bodies) && InMemory(bodies)
    requires k <= |Wire(width, order, bodies)|
    requires Delivers(ev, Eof) && Read(ev) == Wire(width, order, bodies)[..k]
    ensures Fulfils(Receives(Some(LengthPrefixed(width, order)), Fresh, ev, n), DeliveredUpTo(width, bodies, k), n,
                    Exhaustions(ev))
    ensures Deframings(DeliveredUpTo(width, bodies, k)) == if AtBoundary(width, bodies, k) then 0 else 1
  {
    CutWireReference(width, order, bodies, k);
    assert Fresh.buf + Read(ev) == Read(ev);
    FragmentationDoesNotMatter(width, order, Fresh, ev, Eof, n);
    OneErrorUnlessAtBoundary(width, order, bodies, k);
  }

  // ---- Sizes beyond std::size_t ----

  // What the loop makes of a buffered header whose record size wraps.
  lemma OverflowEmitted(width: nat, order: Endian, s: Conn, ev: seq<Event>)
    requires 1 <= width <= 8 && Overflows(width, order, s.buf) && |s.buf| < SIZE_MODULUS
    ensures ReceiveLoop(LengthPrefixed(width, order), s, ev)
         == if width + Announced(width, order, s.buf) == SIZE_MODULUS then
              Fails(s, RECEIVE_ERROR, DEFRAMING_FAILED, [], ev)
            else Step(s.(buf := [], open := false), Received(s.buf[width..], true), s.buf[..width], ev)
  {
    var length := Announced(width, order, s.buf);
    FieldFits(width);
    assert SizeAdd(width, length) == width + length - SIZE_MODULUS < width;
    assert s.buf[width..|s.buf|] == s.buf[width..] && s.buf[|s.buf|..] == [];
  }

  lemma OneCall(f: Framer, s: Conn, ev: seq<Event>)
    requires Usable(f) && CanReceive(s)
    ensures var step := ReceiveLoop(f, s, ev);
            && Receives(Some(f), s, ev, 1).outcomes == [step.outcome] && Receives(Some(f), s, ev, 1).conn == step.conn
            && (step.outcome != NoBlock ==> Results([step.outcome]) == [step.outcome])
  {
    var step := ReceiveLoop(f, s, ev);
    assert Receives(Some(f), step.conn, step.rest, 0).outcomes == [];
    assert [step.outcome][1..] == [];
  }

  lemma OverflowMisread(width: nat, order: Endian, s: Conn, ending: Event)
    requires 1 <= width <= 8 && Overflows(width, order, s.buf) && |s.buf| < SIZE_MODULUS
    requires CanReceive(s) && !s.eof && Ending(ending)
    ensures !Fulfils(Receives(Some(LengthPrefixed(width, order)), s, [ending], 1),
                     Reference(width, order, s.buf, s.open, ending), 1, 0)
  {
    OverflowEmitted(width, order, s, [ending]);
    OneCall(LengthPrefixed(width, order), s, [ending]);
  }

  lemma {:induction false} InsaneMisread(width: nat, order: Endian, s: Conn, ending: Event) returns (n: nat)
    requires 1 <= width <= 8 && !Sane(width, order, s.buf) && |s.buf| < SIZE_MODULUS
    requires CanReceive(s) && !s.eof && Ending(ending)
    ensures n > 0 && !Fulfils(Receives(Some(LengthPrefixed(width, order)), s, [ending], n),
                              Reference(width, order, s.buf, s.open, ending), n, 0)
    decreases |s.buf|
  {
    if Overflows(width, order, s.buf) {
      OverflowMisread(width, order, s, ending);
      n := 1;
    } else {
      var f, end := LengthPrefixed(width, order), RecordEnd(width, order, s.buf);
      var t := s.(buf := s.buf[end..], open := false);
      RecordEmitted(width, order, s, [ending]);
      n := InsaneMisread(width, order, t, ending);
      var run, tail := Receives(Some(f), s, [ending], n + 1), Receives(Some(f), t, [ending], n);
      var owed := Reference(width, order, s.buf, s.open, ending);
      assert owed[1..] == Reference(width, order, t.buf, false, ending);
      if Fulfils(run, owed, n + 1, 0) {
        FulfilsRest(run, tail, owed, n, 0);
      }
      n := n + 1;
    }
  }

  // However the stream is cut, its receives return what it means.
  ghost predicate MeaningKept(width: nat, order: Endian, t: seq<Byte>, ending: Event)
    requires 1 <= width <= 8
  {
    forall ev, n: nat :: Delivers(ev, ending) && Read(ev) == t ==>
      Fulfils(Receives(Some(LengthPrefixed(width, order)), Fresh, ev, n), Reference(width, order, t, false, ending), n,
              Exhaustions(ev))
  }

  lemma InOneRead(f: Framer, t: seq<Byte>, ending: Event, n: nat)
    requires Usable(f) && f.LengthPrefixed? && t != [] && Ending(ending) && n > 0
    ensures var ev := [Chunk(t), ending];
            && Delivers(ev, ending) && Read(ev) == t && Exhaustions(ev) == 0
            && Receives(Some(f), Fresh, ev, n) == Receives(Some(f), Fresh.(buf := t), [ending], n)
  {
    var ev := [Chunk(t), ending];
    assert ev[1..] == [ending] && [ending][1..] == [];
    assert Read([ending]) == [];
    NoExhaustions(ev);
    assert [] + t == t && t + [] == t;
  }

  /** A stream means the same to the code as by the reference, in every fragmentation, if and
      only if none of its records announces a size beyond std::size_t. */
  lemma MeaningKeptIff(width: nat, order: Endian, t: seq<Byte>, ending: Event)
    requires 1 <= width <= 8 && Ending(ending) && |t| < SIZE_MODULUS
    ensures MeaningKept(width, order, t, ending) <==> Sane(width, order, t)
  {
    if Sane(width, order, t) {
      forall ev, n: nat | Delivers(ev, ending) && Read(ev) == t
        ensures Fulfils(Receives(Some(LengthPrefixed(width, order)), Fresh, ev, n),
                        Reference(width, order, t, false, ending), n, Exhaustions(ev))
      {
        assert Fresh.buf + Read(ev) == t;
        FragmentationDoesNotMatter(width, order, Fresh, ev, ending, n);
      }
    } else {
      var n := InsaneMisread(width, order, Fresh.(buf := t), ending);
      InOneRead(LengthPrefixed(width, order), t, ending, n);
    }
  }

  // The first read of a stream.
  lemma FirstRead(width: nat, order: Endian, bytes: seq<Byte>, more: seq<Event>)
    requires 1 <= width <= 8
    ensures ReceiveFramed(LengthPrefixed(width, order), Fresh, [Chunk(bytes)] + more)
         == ReceiveLoop(LengthPrefixed(width, order), Fresh.(buf := bytes), more)
  {
    assert ([Chunk(bytes)] + more)[1..] == more && [] + bytes == bytes;
  }

  lemma TwoCuttings(t: seq<Byte>, k: nat)
    requires 0 < k < |t|
    ensures var whole, cut := [Chunk(t)] + [Eof], [Chunk(t[..k])] + [Chunk(t[k..]), Eof];
            Delivers(whole, Eof) && Delivers(cut, Eof) && Read(whole) == Read(cut) == t
  {
    var whole, cut := [Chunk(t)] + [Eof], [Chunk(t[..k])] + [Chunk(t[k..]), Eof];
    assert whole[1..] == [Eof] && cut[1..] == [Chunk(t[k..]), Eof] && cut[1..][1..] == [Eof] && [Eof][1..] == [];
    assert Read([Eof]) == [] && Read(cut[1..]) == t[k..] + [];
    assert t + [] == t && t[..k] + (t[k..] + []) == t;
  }

  /** And then the fragmentation matters: with such a header in front of more bytes, the
      first receive returns what happens to be in the buffer. */
  lemma FragmentationMatters(width: nat, order: Endian, t: seq<Byte>)
    requires 1 <= width <= 8 && width < |t| < SIZE_MODULUS
    requires Overflows(width, order, t) && width + Announced(width, order, t) != SIZE_MODULUS
    ensures var f := LengthPrefixed(width, order);
            var whole, cut := [Chunk(t)] + [Eof], [Chunk(t[..width])] + [Chunk(t[width..]), Eof];
            && Delivers(whole, Eof) && Delivers(cut, Eof) && Read(whole) == Read(cut) == t
            && ReceiveFramed(f, Fresh, whole).outcome == Received(t[width..], true)
            && ReceiveFramed(f, Fresh, cut).outcome == Received([], true)
  {
    var header := t[..width];
    TwoCuttings(t, width);
    FirstRead(width, order, t, [Eof]);
    FirstRead(width, order, header, [Chunk(t[width..]), Eof]);
    assert header[..width] == header;
    OverflowEmitted(width, order, Fresh.(buf := t), [Eof]);
    OverflowEmitted(width, order, Fresh.(buf := header), [Chunk(t[width..]), Eof]);
  }
}
