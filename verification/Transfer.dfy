/** From one Connection to another: what send() puts on the wire is what receive() makes
    Messages of (src/TCPConnection.cpp). */
module Transfers {
  import opened Bytes
  import opened LengthCodec
  import opened Framing
  import opened Receive
  import LocalCalls
  import opened Streams
  import opened FramedStream
  import opened Blocks
  import opened Messages
  import opened TCPConnections
  import opened Sessions
  import opened TapsApi

  lemma {:induction false} WireSnoc(width: nat, order: Endian, bodies: seq<seq<Byte>>, body: seq<Byte>)
    ensures Wire(width, order, bodies + [body]) == Wire(width, order, bodies) + Record(width, order, body)
  {
    if bodies == [] {
      assert [] + [body] == [body] && [body][1..] == [];
      assert Wire(width, order, [body]) == Record(width, order, body) + [];
    } else {
      assert (bodies + [body])[1..] == bodies[1..] + [body];
      WireSnoc(width, order, bodies[1..], body);
      ConcatAssociative(Record(width, order, bodies[0]), Wire(width, order, bodies[1..]), Record(width, order, body));
    }
  }

  lemma ConcatSnoc(bodies: seq<seq<Byte>>, body: seq<Byte>)
    ensures Concat(bodies + [body]) == Concat(bodies) + body
  {
    ConcatAppend(bodies, [body]);
    assert Concat([body]) == body + Concat([body][1..]);
  }

  // What sending these Messages one after the other is to put on the wire.
  predicate AllFramed(mode: Option<Framer>, bodies: seq<seq<Byte>>, wire: seq<Byte>) {
    && (mode.None? || mode.value.Passthrough? ==> wire == Concat(bodies))
    && (mode.Some? && mode.value.LengthPrefixed? ==> wire == Wire(mode.value.width, mode.value.order, bodies))
  }

  lemma FramedNext(mode: Option<Framer>, bodies: seq<seq<Byte>>, i: nat, wire: seq<Byte>, more: seq<Byte>)
    requires i < |bodies| && AllFramed(mode, bodies[..i], wire) && Framed(mode, bodies[i], more)
    ensures AllFramed(mode, bodies[..i + 1], wire + more)
  {
    assert bodies[..i + 1] == bodies[..i] + [bodies[i]];
    ConcatSnoc(bodies[..i], bodies[i]);
    if mode.Some? && mode.value.LengthPrefixed? {
      WireSnoc(mode.value.width, mode.value.order, bodies[..i], bodies[i]);
    }
  }

  // A send whose write succeeds, with no other call meanwhile.
  method SendOne(c: TCPConnection, message: Message) returns (wire: seq<Byte>)
    requires c.Valid() && c.state == ESTABLISHED && UsableIn(c.framer) && message.Valid()
    modifies c`state, c`aborted
    ensures c.Valid() && c.state == ESTABLISHED && c.Abs() == old(c.Abs())
    ensures Framed(c.framer, message.Payload(), wire)
  {
    NothingMeanwhile(c.Abs());
    var result;
    wire, result := c.Send(message, [], None);
  }

  /** Successive sends whose writes succeed: their records, one after the other. The
      Connection stays as it is. */
  method SendAll(c: TCPConnection, messages: seq<Message>, ghost bodies: seq<seq<Byte>>) returns (wire: seq<Byte>)
    requires c.Valid() && c.state == ESTABLISHED && UsableIn(c.framer) && |bodies| == |messages|
    requires forall i :: 0 <= i < |messages| ==> messages[i].Valid() && messages[i].Payload() == bodies[i]
    modifies c`state, c`aborted
    ensures c.Valid() && c.Abs() == old(c.Abs())
    ensures AllFramed(c.framer, bodies, wire)
  {
    wire := [];
    for i := 0 to |messages|
      invariant c.Valid() && c.state == ESTABLISHED && c.Abs() == old(c.Abs())
      invariant forall j :: i <= j < |messages| ==> messages[j].Valid() && messages[j].Payload() == bodies[j]
      invariant AllFramed(c.framer, bodies[..i], wire)
    {
      var record := SendOne(c, messages[i]);
      FramedNext(c.framer, bodies, i, wire, record);
      wire := wire + record;
    }
    assert bodies[..|messages|] == bodies;
  }

  lemma NothingMeanwhile(s: Conn)
    ensures LocalCalls.Came(s, []) == s
  {
    assert s.buf + [] == s.buf;
  }

  // The reads that bring t when each is asked for no more than the next of `cuts`, and its end.
  function Fragments(t: seq<Byte>, cuts: seq<nat>): seq<Event>
    decreases |t|
  {
    if t == [] then [Eof] else [Chunk(t[..FirstCut(t, cuts)])] + Fragments(t[FirstCut(t, cuts)..], OtherCuts(cuts))
  }

  function FirstCut(t: seq<Byte>, cuts: seq<nat>): (n: nat)
    requires t != []
    ensures 0 < n <= |t|
  {
    if cuts == [] || cuts[0] == 0 then |t| else Min(cuts[0], |t|)
  }

  function OtherCuts(cuts: seq<nat>): seq<nat> {
    if cuts == [] then [] else cuts[1..]
  }

  lemma {:induction false} FragmentsDeliver(t: seq<Byte>, cuts: seq<nat>)
    ensures Delivers(Fragments(t, cuts), Eof) && Read(Fragments(t, cuts)) == t
    decreases |t|
  {
    var ev := Fragments(t, cuts);
    if t == [] {
      assert ev[1..] == [];
    } else {
      var n, rest := FirstCut(t, cuts), Fragments(t[FirstCut(t, cuts)..], OtherCuts(cuts));
      FragmentsDeliver(t[n..], OtherCuts(cuts));
      assert ev[1..] == rest && t[..n] + t[n..] == t;
    }
  }

  lemma {:induction false} DeliveryScripted(ev: seq<Event>, ending: Event)
    requires Delivers(ev, ending) && Ending(ending) && Exhausted !in ev
    ensures Scripted(ev)
    decreases |ev|
  {
    if |ev| > 1 {
      DeliveryScripted(ev[1..], ending);
      assert forall e :: e in ev <==> e == ev[0] || e in ev[1..];
    }
  }

  lemma {:induction false} FragmentsHaveBlocks(t: seq<Byte>, cuts: seq<nat>)
    ensures Exhausted !in Fragments(t, cuts)
    decreases |t|
  {
    if t != [] {
      FragmentsHaveBlocks(t[FirstCut(t, cuts)..], OtherCuts(cuts));
    }
  }

  /** The whole way: Messages that fit the length field are sent by one Connection, and
      another one, with the same framer, reads the bytes in any fragments. It returns the
      Messages as they were sent, then the end, then refusals; with a cap on blocks, failures
      for lack of one may come between. */
  method Transfer(sender: TCPConnection, messages: seq<Message>, ghost bodies: seq<seq<Byte>>,
                  cuts: seq<nat>, native: Endian, pool: MessageBlockPool, n: nat)
    returns (receiver: TCPConnection, replies: seq<Reply>, ghost outs: seq<Outcome>)
    requires sender.Valid() && sender.state == ESTABLISHED && |bodies| == |messages|
    requires sender.framer.Some? && sender.framer.value.LengthPrefixed? && Usable(sender.framer.value)
    requires AllWritable(sender.framer.value.width, bodies) && InMemory(bodies)
    requires forall i :: 0 <= i < |messages| ==> messages[i].Valid() && messages[i].Payload() == bodies[i]
    requires pool.blockSize >= 4 && pool.Valid() && pool.counts == multiset{} && pool != sender.pool
    modifies sender`state, sender`aborted, pool
    ensures sender.Valid() && receiver.Valid() && |replies| == |outs| == n
    ensures forall i :: 0 <= i < n ==> Says(receiver, replies[i], outs[i])
    ensures forall i :: 0 <= i < n && replies[i].GotMessage? ==>
              outs[i].Received? && receiver.Gives(replies[i].message, outs[i].body, outs[i].endOfMessage)
    ensures Answers(Results(outs), Delivered(bodies)) && (pool.maxLive == 0 ==> Results(outs) == outs)
  {
    var wire := SendAll(sender, messages, bodies);
    var script := Fragments(wire, cuts);
    FragmentsDeliver(wire, cuts);
    FragmentsHaveBlocks(wire, cuts);
    DeliveryScripted(script, Eof);
    receiver := new TCPConnection(sender.framer, native, pool, script);
    replies, outs := ReceiveAll(receiver, n, sender.framer.value.width, sender.framer.value.order, bodies);
  }
}
