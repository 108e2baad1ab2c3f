/** Whole sessions of a TCPConnection: successive receives over real blocks return what
    module FramedStream says of the stream, and every Message stays what it was. */
module Sessions {
  import opened Bytes
  import opened LengthCodec
  import opened Framing
  import opened Receive
  import opened Streams
  import opened FramedStream
  import opened PlainStream
  import opened Blocks
  import opened Ranges
  import opened Messages
  import opened TCPConnections

  // ---- Calls one after the other ----

  // More events after those a call has used do not change what it did.
  lemma {:induction false} LoopWithMore(f: Framer, s: Conn, ev: seq<Event>, more: seq<Event>)
    requires Usable(f) && !ReceiveLoop(f, s, ev).outcome.Pending?
    ensures var step := ReceiveLoop(f, s, ev); ReceiveLoop(f, s, ev + more) == step.(rest := step.rest + more)
    decreases |ev|
  {
    if Parse(f, s.buf, s.eof).NeedMore? && !s.eof {
      assert (ev + more)[0] == ev[0] && (ev + more)[1..] == ev[1..] + more;
      if Continues(ev[0]) {
        LoopFrom(f, s, [ev[0]], After(s, ev[0]), ev[1..]);
        LoopWithMore(f, After(s, ev[0]), ev[1..], more);
      }
    }
  }

  lemma {:induction false} OnceWithMore(s: Conn, ev: seq<Event>, more: seq<Event>)
    requires !ReadOnce(s, ev).outcome.Pending?
    ensures var step := ReadOnce(s, ev); ReadOnce(s, ev + more) == step.(rest := step.rest + more)
    decreases |ev|
  {
    assert (ev + more)[0] == ev[0] && (ev + more)[1..] == ev[1..] + more;
    if LocalCall(ev[0]) {
      OnceWithMore(After(s, ev[0]), ev[1..], more);
    }
  }

  lemma CallWithMore(mode: Option<Framer>, s: Conn, ev: seq<Event>, more: seq<Event>)
    requires UsableIn(mode) && !ReceiveIn(mode, s, ev).outcome.Pending?
    ensures var step := ReceiveIn(mode, s, ev); ReceiveIn(mode, s, ev + more) == step.(rest := step.rest + more)
  {
    if CanReceive(s) {
      if mode.Some? {
        LoopWithMore(mode.value, s, ev, more);
      } else {
        OnceWithMore(s, ev, more);
      }
    }
  }

  predicate NonePending(outs: seq<Outcome>) {
    forall o :: o in outs ==> !o.Pending?
  }

  // The k calls have used up their events, and ended there.
  predicate RanTo(mode: Option<Framer>, s: Conn, trace: seq<Event>, outs: seq<Outcome>, t: Conn)
    requires UsableIn(mode)
  {
    var run := Receives(mode, s, trace, |outs|);
    run.outcomes == outs && run.conn == t && run.rest == []
  }

  lemma {:induction false} OneMoreCall(
    mode: Option<Framer>, s: Conn, trace: seq<Event>, outs: seq<Outcome>, t: Conn, seen: seq<Event>, step: Step)
    requires UsableIn(mode) && RanTo(mode, s, trace, outs, t) && NonePending(outs)
    requires step == ReceiveIn(mode, t, seen) && step.rest == []
    ensures RanTo(mode, s, trace + seen, outs + [step.outcome], step.conn)
    decreases |outs|
  {
    if outs == [] {
      assert trace + seen == seen;
      assert Receives(mode, step.conn, step.rest, 0).outcomes == [];
      assert [step.outcome] + [] == outs + [step.outcome];
    } else {
      var first := ReceiveIn(mode, s, trace);
      var run := Receives(mode, s, trace, |outs|);
      var tail := Receives(mode, first.conn, first.rest, |outs| - 1);
      assert run.outcomes == [first.outcome] + tail.outcomes;
      assert outs[0] == first.outcome && outs[1..] == tail.outcomes;
      CallWithMore(mode, s, trace, seen);
      OneMoreCall(mode, first.conn, first.rest, outs[1..], t, seen, step);
      assert [first.outcome] + (outs[1..] + [step.outcome]) == outs + [step.outcome];
    }
  }

  // ---- The stream, re-cut ----

  function ByteItems(bytes: seq<Byte>): seq<Item> {
    seq(|bytes|, i requires 0 <= i < |bytes| => ByteItem(bytes[i]))
  }

  lemma {:induction false} DeliversFlat(ev: seq<Event>, ending: Event)
    requires Delivers(ev, ending) && Ending(ending)
    ensures Flat(ev) == ByteItems(Read(ev)) + [EventItem(ending)]
  {
    if |ev| == 1 {
      assert ev[1..] == [] && Flat(ev) == [EventItem(ending)] + [];
    } else {
      DeliversFlat(ev[1..], ending);
      if ev[0].Chunk? {
        ItemsConcat(ev[0].bytes, Read(ev[1..]));
        ConcatAssociative(ByteItems(ev[0].bytes), ByteItems(Read(ev[1..])), [EventItem(ending)]);
      }
    }
  }

  lemma ItemsConcat(a: seq<Byte>, b: seq<Byte>)
    ensures ByteItems(a + b) == ByteItems(a) + ByteItems(b)
  {
  }

  predicate OnlyExhausted(ev: seq<Event>) {
    forall e :: e in ev ==> e.Exhausted?
  }

  /** Events that carry the same bytes and the same end are another cutting of the stream,
      apart from attempts without a block after the end. */
  lemma {:induction false} FlatDelivers(ev: seq<Event>, t: seq<Byte>, ending: Event) returns (m: nat)
    requires NoEmptyReads(ev) && Ending(ending) && Flat(ev) == ByteItems(t) + [EventItem(ending)]
    ensures 0 < m <= |ev| && Delivers(ev[..m], ending) && Read(ev[..m]) == t && OnlyExhausted(ev[m..])
    decreases |ev|
  {
    assert ev != [];
    var rest := ev[1..];
    if ev[0].Exhausted? {
      m := FlatDelivers(rest, t, ending);
      m := m + 1;
      assert ev[..m][1..] == rest[..m - 1] && ev[m..] == rest[m - 1..];
    } else if ev[0].Chunk? {
      var bytes := ev[0].bytes;
      ChunkFirst(bytes, Flat(rest), t, ending);
      m := FlatDelivers(rest, t[|bytes|..], ending);
      m := m + 1;
      assert ev[..m][1..] == rest[..m - 1] && ev[m..] == rest[m - 1..];
      assert bytes + t[|bytes|..] == t;
    } else {
      EndFirst(ev[0], Flat(rest), t, ending);
      m := 1;
      NothingFlat(rest);
      assert ev[..1] == [ending] && [ending][1..] == [] && ev[1..] == rest;
    }
  }

  lemma ChunkFirst(bytes: seq<Byte>, rest: seq<Item>, t: seq<Byte>, ending: Event)
    requires ByteItems(bytes) + rest == ByteItems(t) + [EventItem(ending)]
    ensures |bytes| <= |t| && bytes == t[..|bytes|] && rest == ByteItems(t[|bytes|..]) + [EventItem(ending)]
  {
    var whole := ByteItems(t) + [EventItem(ending)];
    assert whole[|t|] == EventItem(ending);
    assert |bytes| <= |t|;
    forall i | 0 <= i < |bytes|
      ensures bytes[i] == t[i]
    {
      assert whole[i] == ByteItems(bytes)[i] == ByteItems(t)[i];
    }
    assert t == bytes + t[|bytes|..];
    ItemsConcat(bytes, t[|bytes|..]);
    ConcatAssociative(ByteItems(bytes), ByteItems(t[|bytes|..]), [EventItem(ending)]);
    assert rest == whole[|bytes|..];
  }

  lemma EndFirst(e: Event, rest: seq<Item>, t: seq<Byte>, ending: Event)
    requires [EventItem(e)] + rest == ByteItems(t) + [EventItem(ending)]
    ensures t == [] && e == ending && rest == []
  {
    var whole := ByteItems(t) + [EventItem(ending)];
    assert whole[0] == EventItem(e);
    assert t == [];
    assert whole == [EventItem(ending)];
    assert rest == whole[1..];
  }

  lemma {:induction false} NothingFlat(ev: seq<Event>)
    requires NoEmptyReads(ev) && Flat(ev) == []
    ensures OnlyExhausted(ev)
  {
    if ev != [] {
      assert |FlatOne(ev[0])| == 0;
      NothingFlat(ev[1..]);
    }
  }

  // ---- Nothing is read after the end ----

  // The stream is done with: no call takes any further event.
  predicate Deaf(s: Conn) {
    s.eof || !CanReceive(s)
  }

  // What is left of the stream before the events `tail`.
  predicate Before(s: Conn, ev: seq<Event>, ending: Event, tail: seq<Event>) {
    if Deaf(s) then ev == tail
    else exists n: nat {:trigger ev[..n]} :: n <= |ev| && Delivers(ev[..n], ending) && ev[n..] == tail
  }

  lemma NotYet(s: Conn, ev: seq<Event>, ending: Event, tail: seq<Event>)
    requires !Deaf(s) && Delivers(ev, ending)
    ensures Before(s, ev + tail, ending, tail)
  {
    assert (ev + tail)[..|ev|] == ev && (ev + tail)[|ev|..] == tail;
  }

  // What the loop does with the first event.
  lemma LoopTakes(f: Framer, s: Conn, e: Event, more: seq<Event>)
    requires Usable(f) && Parse(f, s.buf, s.eof).NeedMore? && !s.eof
    ensures var step := ReceiveLoop(f, s, [e] + more);
            && (Continues(e) ==> step == ReceiveLoop(f, After(s, e), more))
            && (ReadFailed(e) ==> step == ReadFails(s, e, more))
  {
    assert ([e] + more)[1..] == more;
  }

  // What ends the stream leaves a Connection that takes no further event.
  lemma EndTaken(f: Framer, s: Conn, ending: Event, tail: seq<Event>)
    requires Usable(f) && Ending(ending) && Parse(f, s.buf, s.eof).NeedMore? && !Deaf(s)
    ensures var step := ReceiveLoop(f, s, [ending] + tail); Deaf(step.conn) && step.rest == tail
  {
    LoopTakes(f, s, ending, tail);
  }

  lemma {:induction false} LoopStopsAtEnd(f: Framer, s: Conn, ev: seq<Event>, ending: Event, tail: seq<Event>)
    requires Usable(f) && Ending(ending) && !Deaf(s) && Delivers(ev, ending)
    ensures var step := ReceiveLoop(f, s, ev + tail); Before(step.conn, step.rest, ending, tail)
    decreases |ev|
  {
    var step, rest := ReceiveLoop(f, s, ev + tail), ev[1..];
    if !Parse(f, s.buf, s.eof).NeedMore? {
      NotYet(step.conn, ev, ending, tail);
    } else {
      assert ev + tail == [ev[0]] + (rest + tail);
      LoopTakes(f, s, ev[0], rest + tail);
      if |ev| == 1 {
        assert rest + tail == tail;
        EndTaken(f, s, ending, tail);
      } else if ev[0].Chunk? {
        LoopStopsAtEnd(f, After(s, ev[0]), rest, ending, tail);
      } else {
        NotYet(step.conn, rest, ending, tail);
      }
    }
  }

  // Without a framer nothing is left to receive after the end.
  predicate EndedAtEof(mode: Option<Framer>, s: Conn) {
    mode.None? && s.eof ==> !CanReceive(s)
  }

  lemma OnceStopsAtEnd(s: Conn, ev: seq<Event>, ending: Event, tail: seq<Event>)
    requires Ending(ending) && !Deaf(s) && Delivers(ev, ending)
    ensures var step := ReadOnce(s, ev + tail);
            Before(step.conn, step.rest, ending, tail) && EndedAtEof(None, step.conn)
  {
    var step, rest := ReadOnce(s, ev + tail), ev[1..];
    assert ev + tail == [ev[0]] + (rest + tail);
    OnceTakes(s, ev[0], rest + tail);
    if |ev| == 1 {
      assert rest + tail == tail;
    } else {
      NotYet(step.conn, rest, ending, tail);
    }
  }

  // The one read takes the first event, and nothing can be received after the end.
  lemma OnceTakes(s: Conn, e: Event, more: seq<Event>)
    requires !Deaf(s) && (Ending(e) || e.Chunk? || e.Exhausted?)
    ensures var step := ReadOnce(s, [e] + more);
            && step.rest == more && (Ending(e) ==> !CanReceive(step.conn)) && (!Ending(e) ==> step.conn == s)
  {
    assert ([e] + more)[1..] == more;
  }

  lemma CallStopsAtEnd(mode: Option<Framer>, s: Conn, ev: seq<Event>, ending: Event, tail: seq<Event>)
    requires UsableIn(mode) && Ending(ending) && Before(s, ev, ending, tail) && EndedAtEof(mode, s)
    ensures var step := ReceiveIn(mode, s, ev);
            Before(step.conn, step.rest, ending, tail) && EndedAtEof(mode, step.conn)
  {
    if !Deaf(s) {
      var n: nat :| n <= |ev| && Delivers(ev[..n], ending) && ev[n..] == tail;
      assert ev == ev[..n] + tail;
      if mode.Some? {
        LoopStopsAtEnd(mode.value, s, ev[..n], ending, tail);
      } else {
        OnceStopsAtEnd(s, ev[..n], ending, tail);
      }
    }
  }

  lemma TailLeft(s: Conn, ev: seq<Event>, ending: Event, tail: seq<Event>)
    requires Before(s, ev, ending, tail)
    ensures |ev| >= |tail|
  {
    if !Deaf(s) {
      var k: nat :| k <= |ev| && Delivers(ev[..k], ending) && ev[k..] == tail;
    }
  }

  lemma {:induction false} CallsStopAtEnd(
    mode: Option<Framer>, s: Conn, ev: seq<Event>, ending: Event, tail: seq<Event>, n: nat)
    requires UsableIn(mode) && Ending(ending) && Before(s, ev, ending, tail) && EndedAtEof(mode, s)
    ensures |Receives(mode, s, ev, n).rest| >= |tail|
    decreases n
  {
    if n == 0 {
      TailLeft(s, ev, ending, tail);
    } else {
      CallStopsAtEnd(mode, s, ev, ending, tail);
      var step := ReceiveIn(mode, s, ev);
      CallsStopAtEnd(mode, step.conn, step.rest, ending, tail, n - 1);
    }
  }

  // ---- What was handed out stays what it was ----

  lemma {:induction false} SameLength(mem: Memory, later: Memory, rs: seq<BlockRef>)
    ensures |View(mem, rs)| == |View(later, rs)|
  {
    if rs != [] {
      SameLength(mem, later, rs[1..]);
    }
  }

  lemma {:induction false} SameSlices(mem: Memory, later: Memory, rs: seq<BlockRef>)
    requires View(mem, rs) == View(later, rs)
    ensures forall r :: r in rs ==> Slice(mem, r) == Slice(later, r)
  {
    if rs != [] {
      var n := |Slice(mem, rs[0])|;
      assert View(mem, rs)[..n] == Slice(mem, rs[0]) && View(later, rs)[..n] == Slice(later, rs[0]);
      assert View(mem, rs)[n..] == View(mem, rs[1..]) && View(later, rs)[n..] == View(later, rs[1..]);
      SameSlices(mem, later, rs[1..]);
    }
  }

  lemma {:induction false} SameView(mem: Memory, later: Memory, rs: seq<BlockRef>)
    requires forall r :: r in rs ==> Slice(mem, r) == Slice(later, r)
    ensures View(mem, rs) == View(later, rs)
  {
    if rs != [] {
      SameView(mem, later, rs[1..]);
    }
  }

  predicate Among(rs: seq<BlockRef>, all: seq<BlockRef>) {
    forall r :: r in rs ==> r in all
  }

  // Every range among those handed out reads the same.
  predicate Unwritten(mem: Memory, later: Memory, given: seq<BlockRef>) {
    forall r :: r in given ==> Slice(mem, r) == Slice(later, r)
  }

  lemma StillThere(mem: Memory, later: Memory, given: seq<BlockRef>, more: seq<BlockRef>,
                   delivered: seq<Byte>, bytes: seq<Byte>)
    requires View(mem, given) == delivered && View(later, given + more) == delivered + bytes
    ensures Unwritten(mem, later, given)
  {
    ViewConcat(later, given, more);
    SameLength(mem, later, given);
    assert View(later, given) == (delivered + bytes)[..|delivered|];
    SameSlices(mem, later, given);
  }

  // A Message of a chain, apart from what the memory of its pool holds.
  ghost predicate Intact(message: Message, out: Outcome)
    reads message, if message.gathered == null then {} else {message.gathered}
    reads if message.backing.Chained? then {message.backing.chain, message.backing.chain.data} else {}
  {
    && out.Received? && message.endOfMessage == out.endOfMessage
    && message.backing.Chained? && message.backing.chain.Valid()
    && (message.gathered != null ==> message.gathered[..] == out.body)
  }

  // The reply says what the outcome is, and its Message, of ranges that were handed out,
  // still does.
  ghost predicate Says(c: TCPConnection, reply: Reply, out: Outcome)
    reads c`given, c.chain, c.pool
    reads if reply.GotMessage? then {reply.message} else {}
    reads if reply.GotMessage? && reply.message.gathered != null then {reply.message.gathered} else {}
    reads if reply.GotMessage? && reply.message.backing.Chained? then
            {reply.message.backing.chain, reply.message.backing.chain.data}
          else {}
  {
    match reply
    case GotMessage(message) =>
      && Intact(message, out) && message.backing.pool == c.pool && c.Apart(message)
      && Among(message.backing.chain.refs, c.given)
      && View(c.pool.memory, message.backing.chain.refs) == out.body
    case GotError(event, reason) => out == Failure(event, reason)
    case StillWaiting => out == Pending
  }

  // So the application gets these bytes from it.
  lemma SaysGives(c: TCPConnection, reply: Reply, out: Outcome)
    requires Says(c, reply, out)
    ensures reply.GotMessage? ==> c.Gives(reply.message, out.body, out.endOfMessage)
  {
  }

  lemma AnsweredSays(c: TCPConnection, reply: Reply, out: Outcome,
                     lent: multiset<DataBlock>, given: seq<BlockRef>, delivered: seq<Byte>)
    requires c.Answered(reply, out, lent, given, delivered)
    requires reply.GotMessage? ==> c.Apart(reply.message)
    ensures Says(c, reply, out)
  {
  }

  /** receive() writes to nothing it has handed out. */
  method ReceiveOnce(c: TCPConnection) returns (reply: Reply, ghost out: Outcome, ghost seen: seq<Event>)
    requires c.Valid() && Scripted(c.script) && UsableIn(c.framer)
    modifies c, c.current, c.pool, c.chain, c.chain.data
    ensures c.Valid() && Scripted(c.script) && (c.chain.data == old(c.chain.data) || fresh(c.chain.data))
    ensures Says(c, reply, out) && old(c.given) <= c.given
    ensures Unwritten(old(c.pool.memory), c.pool.memory, old(c.given))
    ensures Flat(old(c.script)) == Flat(seen) + Flat(c.script) && Possible(seen, c.pool.maxLive)
    ensures out.Pending? <==> reply.StillWaiting?
    ensures out.Pending? ==> c.script == []
    ensures var step := ReceiveIn(c.framer, old(c.Abs()), seen);
            step.conn == c.Abs() && step.outcome == out && step.rest == []
  {
    ghost var mem, lent, given, delivered := c.pool.memory, c.lent, c.given, c.delivered;
    assert c.Holds(BytesPart, Invalid);
    reply, out, seen := c.Receive();
    AnsweredSays(c, reply, out, lent, given, delivered);
    assert c.Holds(BytesPart, Invalid);
    StillThere(mem, c.pool.memory, given, reply.Refs(), delivered, Body(out));
  }

  // What a Message needs of the Connection to say the same.
  lemma SaysStill(c: TCPConnection, reply: Reply, out: Outcome, mem: Memory, given: seq<BlockRef>)
    requires reply.GotMessage? && Intact(reply.message, out)
    requires reply.message.backing.pool == c.pool && c.Apart(reply.message)
    requires given <= c.given && Unwritten(mem, c.pool.memory, given)
    requires Among(reply.message.backing.chain.refs, given) && View(mem, reply.message.backing.chain.refs) == out.body
    ensures Says(c, reply, out)
  {
    SameView(mem, c.pool.memory, reply.message.backing.chain.refs);
  }

  /** receive(), with the Messages of earlier calls in the application's hands: they
      say what they said before. */
  method ReceiveBeside(c: TCPConnection, replies: seq<Reply>, ghost outs: seq<Outcome>)
    returns (reply: Reply, ghost out: Outcome, ghost seen: seq<Event>)
    requires c.Valid() && Scripted(c.script) && UsableIn(c.framer)
    requires |replies| == |outs| && forall i :: 0 <= i < |outs| ==> Says(c, replies[i], outs[i])
    modifies c, c.current, c.pool, c.chain, c.chain.data
    ensures c.Valid() && Scripted(c.script) && (c.chain.data == old(c.chain.data) || fresh(c.chain.data))
    ensures Says(c, reply, out) && forall i :: 0 <= i < |outs| ==> Says(c, replies[i], outs[i])
    ensures Flat(old(c.script)) == Flat(seen) + Flat(c.script) && Possible(seen, c.pool.maxLive)
    ensures out.Pending? <==> reply.StillWaiting?
    ensures out.Pending? ==> c.script == []
    ensures var step := ReceiveIn(c.framer, old(c.Abs()), seen);
            step.conn == c.Abs() && step.outcome == out && step.rest == []
  {
    ghost var mem, given := c.pool.memory, c.given;
    reply, out, seen := ReceiveOnce(c);
    forall i | 0 <= i < |outs|
      ensures Says(c, replies[i], outs[i])
    {
      if replies[i].GotMessage? {
        SaysStill(c, replies[i], outs[i], mem, given);
      }
    }
  }

  // Every reply says its outcome.
  ghost predicate AllSay(c: TCPConnection, replies: seq<Reply>, outs: seq<Outcome>)
    reads c`given, c.chain, c.pool
    reads set r | r in replies && r.GotMessage? :: r.message
    reads set r | r in replies && r.GotMessage? && r.message.gathered != null :: r.message.gathered
    reads set r | r in replies && r.GotMessage? && r.message.backing.Chained? :: r.message.backing.chain
    reads set r | r in replies && r.GotMessage? && r.message.backing.Chained? :: r.message.backing.chain.data
  {
    |replies| == |outs| && forall i :: 0 <= i < |outs| ==> Says(c, replies[i], outs[i])
  }

  // One call more.
  method ReceiveNext(c: TCPConnection, replies: seq<Reply>, ghost outs: seq<Outcome>,
                     ghost start: Conn, ghost script: seq<Event>, ghost trace: seq<Event>)
    returns (all: seq<Reply>, ghost allOuts: seq<Outcome>, ghost met: seq<Event>)
    requires c.Valid() && Scripted(c.script) && UsableIn(c.framer) && AllSay(c, replies, outs)
    requires Went(c.framer, start, script, trace, c.script, outs, c.Abs(), c.pool.maxLive) && !Waits(outs)
    modifies c, c.current, c.pool, c.chain, c.chain.data
    ensures c.Valid() && Scripted(c.script) && (c.chain.data == old(c.chain.data) || fresh(c.chain.data))
    ensures AllSay(c, all, allOuts) && |all| == |replies| + 1
    ensures Went(c.framer, start, script, met, c.script, allOuts, c.Abs(), c.pool.maxLive)
    ensures Waits(allOuts) == all[|replies|].StillWaiting?
  {
    ghost var left, t := c.script, c.Abs();
    var reply;
    ghost var out, seen;
    reply, out, seen := ReceiveBeside(c, replies, outs);
    WentOn(c.framer, start, script, trace, left, outs, t, c.pool.maxLive, seen, c.script, ReceiveIn(c.framer, t, seen));
    all, allOuts, met := replies + [reply], outs + [out], trace + seen;
  }

  /** n successive calls of receive(), until one has to wait for more: together
      they do what module Receive says, and every Message says at the end what it said
      when it was returned. */
  method ReceiveTimes(c: TCPConnection, n: nat)
    returns (replies: seq<Reply>, ghost outs: seq<Outcome>, ghost trace: seq<Event>)
    requires c.Valid() && Scripted(c.script) && UsableIn(c.framer)
    modifies c, c.current, c.pool, c.chain, c.chain.data
    ensures c.Valid() && Scripted(c.script)
    ensures |replies| == |outs| <= n && forall i :: 0 <= i < |outs| ==> Says(c, replies[i], outs[i])
    ensures RanTo(c.framer, old(c.Abs()), trace, outs, c.Abs())
    ensures Flat(old(c.script)) == Flat(trace) + Flat(c.script) && Possible(trace, c.pool.maxLive)
    ensures |outs| == n || Waits(outs)
    ensures NonePending(if Waits(outs) then outs[..|outs| - 1] else outs)
    ensures Waits(outs) ==> c.script == []
  {
    replies, outs, trace := [], [], [];
    ghost var start, script := c.Abs(), c.script;
    var waiting := false;
    while |replies| < n && !waiting
      invariant c.Valid() && Scripted(c.script) && (c.chain.data == old(c.chain.data) || fresh(c.chain.data))
      invariant AllSay(c, replies, outs) && |replies| <= n && waiting == Waits(outs)
      invariant Went(c.framer, start, script, trace, c.script, outs, c.Abs(), c.pool.maxLive)
    {
      replies, outs, trace := ReceiveNext(c, replies, outs, start, script, trace);
      waiting := replies[|replies| - 1].StillWaiting?;
    }
  }

  // The calls so far have led from `start` to t, met `trace` of the script and left `left`.
  predicate Went(mode: Option<Framer>, start: Conn, script: seq<Event>, trace: seq<Event>, left: seq<Event>,
                 outs: seq<Outcome>, t: Conn, maxLive: nat)
    requires UsableIn(mode)
  {
    && RanTo(mode, start, trace, outs, t)
    && Flat(script) == Flat(trace) + Flat(left) && Possible(trace, maxLive)
    && NonePending(if Waits(outs) then outs[..|outs| - 1] else outs)
    && (Waits(outs) ==> left == [])
  }

  lemma WentOn(mode: Option<Framer>, start: Conn, script: seq<Event>, trace: seq<Event>, before: seq<Event>,
               outs: seq<Outcome>, t: Conn, maxLive: nat, seen: seq<Event>, left: seq<Event>, step: Step)
    requires UsableIn(mode) && Went(mode, start, script, trace, before, outs, t, maxLive) && !Waits(outs)
    requires step == ReceiveIn(mode, t, seen) && step.rest == [] && (step.outcome.Pending? ==> left == [])
    requires Flat(before) == Flat(seen) + Flat(left) && Possible(seen, maxLive)
    ensures Went(mode, start, script, trace + seen, left, outs + [step.outcome], step.conn, maxLive)
    ensures Waits(outs + [step.outcome]) == step.outcome.Pending?
  {
    OneMoreCall(mode, start, trace, outs, t, seen, step);
    SeenSoFar(trace, seen, Flat(left), maxLive);
    WaitsLast(outs, step.outcome);
  }

  predicate Waits(outs: seq<Outcome>) {
    outs != [] && outs[|outs| - 1].Pending?
  }

  lemma WaitsLast(outs: seq<Outcome>, out: Outcome)
    requires NonePending(outs)
    ensures Waits(outs + [out]) == out.Pending? && (outs + [out])[..|outs|] == outs
    ensures !out.Pending? ==> NonePending(outs + [out])
  {
  }

  lemma SeenSoFar(trace: seq<Event>, seen: seq<Event>, rest: seq<Item>, maxLive: nat)
    ensures Flat(trace) + (Flat(seen) + rest) == Flat(trace + seen) + rest
    ensures Possible(trace, maxLive) && Possible(seen, maxLive) ==> Possible(trace + seen, maxLive)
  {
    FlatConcat(trace, seen);
    ConcatAssociative(Flat(trace), Flat(seen), rest);
  }

  // ---- A stream through a Connection ----

  lemma {:induction false} RunsWithMore(
    mode: Option<Framer>, s: Conn, trace: seq<Event>, outs: seq<Outcome>, t: Conn, more: seq<Event>)
    requires UsableIn(mode) && RanTo(mode, s, trace, outs, t) && (NonePending(outs) || more == [])
    ensures var run := Receives(mode, s, trace + more, |outs|); run.outcomes == outs && run.conn == t && run.rest == more
    decreases |outs|
  {
    if more == [] {
      assert trace + more == trace;
    } else if outs == [] {
      assert trace + more == more;
    } else {
      var first := ReceiveIn(mode, s, trace);
      var tail := Receives(mode, first.conn, first.rest, |outs| - 1);
      assert Receives(mode, s, trace, |outs|).outcomes == [first.outcome] + tail.outcomes;
      assert outs[0] == first.outcome && outs[1..] == tail.outcomes;
      CallWithMore(mode, s, trace, more);
      RunsWithMore(mode, first.conn, first.rest, outs[1..], t, more);
      assert [outs[0]] + outs[1..] == outs;
    }
  }

  // What the calls have met and what is left make up a cutting of the same stream.
  lemma SameStream(mode: Option<Framer>, script: seq<Event>, ending: Event, trace: seq<Event>, left: seq<Event>,
                   outs: seq<Outcome>)
    requires UsableIn(mode) && Ending(ending) && Delivers(script, ending)
    requires NoEmptyReads(trace) && Scripted(left) && Flat(script) == Flat(trace) + Flat(left)
    requires Receives(mode, Fresh, trace + left, |outs|).rest == left
    ensures Delivers(trace + left, ending) && Read(trace + left) == Read(script)
  {
    var ev := trace + left;
    FlatConcat(trace, left);
    DeliversFlat(script, ending);
    var m := FlatDelivers(ev, Read(script), ending);
    LeftBehindEnd(mode, ev, m, ending, |outs|);
    NothingBehindEnd(trace, left, m);
    assert ev[..m] == ev;
  }

  // What comes after the end is left.
  lemma LeftBehindEnd(mode: Option<Framer>, ev: seq<Event>, m: nat, ending: Event, n: nat)
    requires UsableIn(mode) && Ending(ending) && m <= |ev| && Delivers(ev[..m], ending)
    ensures |Receives(mode, Fresh, ev, n).rest| >= |ev| - m
  {
    NotYet(Fresh, ev[..m], ending, ev[m..]);
    assert ev == ev[..m] + ev[m..];
    CallsStopAtEnd(mode, Fresh, ev, ending, ev[m..], n);
  }

  lemma NothingBehindEnd(trace: seq<Event>, left: seq<Event>, m: nat)
    requires |trace| <= m <= |trace + left| && OnlyExhausted((trace + left)[m..]) && Scripted(left)
    ensures m == |trace + left|
  {
    assert (trace + left)[m..] == left[m - |trace|..];
    if m < |trace + left| {
      NotOnlyExhausted(left, m - |trace|);
    }
  }

  lemma NotOnlyExhausted(left: seq<Event>, k: nat)
    requires Scripted(left) && k < |left|
    ensures !OnlyExhausted(left[k..])
  {
    assert left[k..][0] == left[k] && left[k] in left && left[k] in left[k..];
  }

  lemma {:induction false} ReferenceSettles(width: nat, order: Endian, t: seq<Byte>, open: bool, ending: Event)
    requires width >= 1
    ensures NonePending(Reference(width, order, t, open, ending))
    decreases |t|
  {
    if Complete(width, order, t) {
      ReferenceSettles(width, order, t[RecordEnd(width, order, t)..], false, ending);
    }
  }

  lemma {:induction false} ResultsKeepWaiting(outs: seq<Outcome>)
    requires Waits(outs)
    ensures Waits(Results(outs))
  {
    if |outs| > 1 {
      ResultsKeepWaiting(outs[1..]);
    }
  }

  lemma NeverWaits(owed: seq<Outcome>, outs: seq<Outcome>)
    requires NonePending(owed) && Answers(Results(outs), owed)
    ensures !Waits(outs)
  {
    if Waits(outs) {
      ResultsKeepWaiting(outs);
    }
  }

  // Without failures for lack of a block the results are all there is.
  lemma {:induction false} ResultsAreAll(outs: seq<Outcome>)
    ensures |Results(outs)| <= |outs|
    ensures |Results(outs)| == |outs| ==> Results(outs) == outs
  {
    if outs != [] {
      ResultsAreAll(outs[1..]);
      assert outs == [outs[0]] + outs[1..];
    }
  }

  lemma NoneLackedABlock(ev: seq<Event>, outs: seq<Outcome>)
    requires Exhausted !in ev && |outs| <= |Results(outs)| + Exhaustions(ev)
    ensures Results(outs) == outs
  {
    NoExhaustions(ev);
    ResultsAreAll(outs);
  }

  // What n calls that fulfil what is owed come to.
  lemma Fulfilled(run: Run, owed: seq<Outcome>, ev: seq<Event>)
    requires Fulfils(run, owed, |run.outcomes|, Exhaustions(ev)) && NonePending(owed)
    ensures Answers(Results(run.outcomes), owed) && !Waits(run.outcomes)
    ensures CanReceive(run.conn) <==> |Results(run.outcomes)| < |owed|
    ensures Exhausted !in ev ==> Results(run.outcomes) == run.outcomes
  {
    NeverWaits(owed, run.outcomes);
    if Exhausted !in ev {
      NoneLackedABlock(ev, run.outcomes);
    }
  }

  /** A new Connection whose network delivers the stream in some fragments: its first n
      receives, or those up to one that has to wait, do what module Receive says of some
      cutting of the same stream. The Messages are all still there at the end. */
  method ReceiveCutting(c: TCPConnection, n: nat, ghost ending: Event)
    returns (replies: seq<Reply>, ghost outs: seq<Outcome>, ghost ev: seq<Event>)
    requires c.Valid() && c.Abs() == Fresh && UsableIn(c.framer)
    requires Scripted(c.script) && Ending(ending) && Delivers(c.script, ending)
    modifies c, c.current, c.pool, c.chain, c.chain.data
    ensures c.Valid() && |replies| == |outs| <= n && (|outs| == n || Waits(outs))
    ensures forall i :: 0 <= i < |outs| ==> Says(c, replies[i], outs[i])
    ensures Delivers(ev, ending) && Read(ev) == old(Read(c.script)) && (c.pool.maxLive == 0 ==> Exhausted !in ev)
    ensures var run := Receives(c.framer, Fresh, ev, |outs|); run.outcomes == outs && run.conn == c.Abs()
  {
    ghost var script, trace := c.script, [];
    replies, outs, trace := ReceiveTimes(c, n);
    ev := trace + c.script;
    RunsWithMore(c.framer, Fresh, trace, outs, c.Abs(), c.script);
    SameStream(c.framer, script, ending, trace, c.script, outs);
    ScriptLacksNoBlock(trace, c.script);
  }

  lemma ScriptLacksNoBlock(trace: seq<Event>, left: seq<Event>)
    requires Scripted(left)
    ensures Exhausted !in trace ==> Exhausted !in trace + left
  {
  }

  /** With the length-prefix framer they return what the stream means, in order, and then
      refusals. Nothing but failures for lack of a block comes between, and none of those
      when the number of blocks has no limit; no call is left waiting. */
  method ReceiveStream(c: TCPConnection, n: nat, ghost width: nat, ghost order: Endian, ghost ending: Event)
    returns (replies: seq<Reply>, ghost outs: seq<Outcome>)
    requires c.Valid() && c.Abs() == Fresh && c.framer == Some(LengthPrefixed(width, order)) && 1 <= width <= 8
    requires Scripted(c.script) && Ending(ending) && Delivers(c.script, ending) && Sane(width, order, Read(c.script))
    modifies c, c.current, c.pool, c.chain, c.chain.data
    ensures c.Valid() && |replies| == |outs| == n
    ensures forall i :: 0 <= i < n ==> Says(c, replies[i], outs[i])
    ensures var owed := Reference(width, order, old(Read(c.script)), false, ending);
            Answers(Results(outs), owed) && (CanReceive(c.Abs()) <==> |Results(outs)| < |owed|)
    ensures c.pool.maxLive == 0 ==> Results(outs) == outs
  {
    ghost var t, ev := Read(c.script), [];
    replies, outs, ev := ReceiveCutting(c, n, ending);
    assert Fresh.buf + Read(ev) == t;
    FragmentationDoesNotMatter(width, order, Fresh, ev, ending, |outs|);
    ReferenceSettles(width, order, t, false, ending);
    Fulfilled(Receives(c.framer, Fresh, ev, |outs|), Reference(width, order, t, false, ending), ev);
  }

  /** Without a framer they return the stream in parts, as the reads brought them, then its
      end, once, and then refusals. */
  method ReceiveParts(c: TCPConnection, n: nat, ghost ending: Event)
    returns (replies: seq<Reply>, ghost outs: seq<Outcome>, ghost parts: seq<seq<Byte>>)
    requires c.Valid() && c.Abs() == Fresh && c.framer == None
    requires Scripted(c.script) && Ending(ending) && Delivers(c.script, ending)
    modifies c, c.current, c.pool, c.chain, c.chain.data
    ensures c.Valid() && |replies| == |outs| == n
    ensures forall i :: 0 <= i < n ==> Says(c, replies[i], outs[i])
    ensures Concat(parts) == old(Read(c.script)) && forall i :: 0 <= i < |parts| ==> parts[i] != []
    ensures var owed := PartReference(parts, ending);
            Answers(Results(outs), owed) && (CanReceive(c.Abs()) <==> |Results(outs)| < |owed|)
    ensures c.pool.maxLive == 0 ==> Results(outs) == outs
  {
    ghost var ev;
    replies, outs, ev := ReceiveCutting(c, n, ending);
    parts := Parts(ev);
    UnframedStream(Fresh, ev, ending, |outs|);
    NoEmptyParts(ev, ending);
    PartsSettle(parts, ending);
    Fulfilled(Receives(c.framer, Fresh, ev, |outs|), PartReference(parts, ending), ev);
  }

  lemma {:induction false} NoEmptyParts(ev: seq<Event>, ending: Event)
    requires Delivers(ev, ending) && Ending(ending)
    ensures forall i :: 0 <= i < |Parts(ev)| ==> Parts(ev)[i] != []
    decreases |ev|
  {
    if |ev| > 1 {
      NoEmptyParts(ev[1..], ending);
    } else {
      assert ev[1..] == [];
    }
  }

  lemma {:induction false} PartsSettle(parts: seq<seq<Byte>>, ending: Event)
    ensures NonePending(PartReference(parts, ending))
  {
    if parts != [] {
      PartsSettle(parts[1..], ending);
    }
  }

  lemma WholeSettles(t: seq<Byte>, ending: Event)
    ensures NonePending(WholeReference(t, ending))
  {
  }

  /** With the Passthrough framer they return the whole stream as one Message, its end, and
      refusals. */
  method ReceivePassed(c: TCPConnection, n: nat, ghost gather: bool, ghost ending: Event)
    returns (replies: seq<Reply>, ghost outs: seq<Outcome>)
    requires c.Valid() && c.Abs() == Fresh && c.framer == Some(Passthrough(gather))
    requires Scripted(c.script) && Ending(ending) && Delivers(c.script, ending) && |Read(c.script)| < SIZE_MODULUS
    modifies c, c.current, c.pool, c.chain, c.chain.data
    ensures c.Valid() && |replies| == |outs| == n
    ensures forall i :: 0 <= i < n ==> Says(c, replies[i], outs[i])
    ensures var owed := WholeReference(old(Read(c.script)), ending);
            Answers(Results(outs), owed) && (CanReceive(c.Abs()) <==> |Results(outs)| < |owed|)
    ensures c.pool.maxLive == 0 ==> Results(outs) == outs
  {
    ghost var t, ev := Read(c.script), [];
    replies, outs, ev := ReceiveCutting(c, n, ending);
    assert Fresh.buf + Read(ev) == t;
    PassthroughStream(gather, Fresh, ev, ending, |outs|);
    WholeSettles(t, ending);
    Fulfilled(Receives(c.framer, Fresh, ev, |outs|), WholeReference(t, ending), ev);
  }

  /** The framed round trip through a Connection: Messages that fit come back as they were
      sent, whatever the fragmentation, and all of them can be read at the end. */
  method ReceiveAll(c: TCPConnection, n: nat, ghost width: nat, ghost order: Endian, ghost bodies: seq<seq<Byte>>)
    returns (replies: seq<Reply>, ghost outs: seq<Outcome>)
    requires c.Valid() && c.Abs() == Fresh && c.framer == Some(LengthPrefixed(width, order)) && 1 <= width <= 8
    requires AllWritable(width, bodies) && InMemory(bodies)
    requires Scripted(c.script) && Delivers(c.script, Eof) && Read(c.script) == Wire(width, order, bodies)
    modifies c, c.current, c.pool, c.chain, c.chain.data
    ensures c.Valid() && |replies| == |outs| == n
    ensures forall i :: 0 <= i < n ==> Says(c, replies[i], outs[i])
    ensures forall i :: 0 <= i < n && replies[i].GotMessage? ==>
              outs[i].Received? && c.Gives(replies[i].message, outs[i].body, outs[i].endOfMessage)
    ensures Answers(Results(outs), Delivered(bodies)) && (c.pool.maxLive == 0 ==> Results(outs) == outs)
  {
    WireReferenceIsDelivered(width, order, bodies);
    replies, outs := ReceiveStream(c, n, width, order, Eof);
    forall i | 0 <= i < n && replies[i].GotMessage?
      ensures outs[i].Received? && c.Gives(replies[i].message, outs[i].body, outs[i].endOfMessage)
    {
      SaysGives(c, replies[i], outs[i]);
    }
  }

  /** And when only the first k bytes of the wire arrive. */
  method ReceiveCut(c: TCPConnection, n: nat, ghost width: nat, ghost order: Endian,
                    ghost bodies: seq<seq<Byte>>, ghost k: nat)
    returns (replies: seq<Reply>, ghost outs: seq<Outcome>)
    requires c.Valid() && c.Abs() == Fresh && c.framer == Some(LengthPrefixed(width, order)) && 1 <= width <= 8
    requires AllWritable(width, bodies) && InMemory(bodies) && k <= |Wire(width, order, bodies)|
    requires Scripted(c.script) && Delivers(c.script, Eof) && Read(c.script) == Wire(width, order, bodies)[..k]
    modifies c, c.current, c.pool, c.chain, c.chain.data
    ensures c.Valid() && |replies| == |outs| == n
    ensures forall i :: 0 <= i < n ==> Says(c, replies[i], outs[i])
    ensures Answers(Results(outs), DeliveredUpTo(width, bodies, k)) && (c.pool.maxLive == 0 ==> Results(outs) == outs)
  {
    CutWireReference(width, order, bodies, k);
    replies, outs := ReceiveStream(c, n, width, order, Eof);
  }
}
