/** TCPConnection (src/TCPConnection.cpp) over real blocks: each call does what module Receive
    says, delivered bytes are never written again, and every reference count stays exact. */
module TCPConnections {
  import opened Bytes
  import LengthCodec
  import opened Framing
  import opened Receive
  import opened LocalCalls
  import opened TapsApi
  import opened Blocks
  import opened Ranges
  import opened BlockChains
  import opened ReadWindow
  import opened Messages
  import Readers
  import Sending

  // The result of a receive().
  datatype Reply =
    | GotMessage(message: Message)
    | GotError(event: ErrorEvent, reason: ErrorReason)
    | StillWaiting
  {
    // The ranges of the Message's chain.
    ghost function Refs(): seq<BlockRef>
      reads if GotMessage? && message.backing.Chained? then {message.backing.chain} else {}
    {
      if GotMessage? && message.backing.Chained? then message.backing.chain.refs else []
    }
  }

  // What the network and the application have in store: no empty reads, and the lack of a
  // block is not up to them.
  predicate Scripted(script: seq<Event>) {
    forall e :: e in script ==> !e.Exhausted? && (e.Chunk? ==> e.bytes != [])
  }

  // The bytes a read delivers.
  function ReadBytes(e: Option<Event>): seq<Byte> {
    if e.Some? && e.value.Chunk? then e.value.bytes else []
  }

  // No read of the trace is empty.
  predicate NoEmptyReads(trace: seq<Event>) {
    forall e :: e in trace && e.Chunk? ==> e.bytes != []
  }

  // And a block is lacking only if their number is limited.
  predicate Possible(trace: seq<Event>, maxLive: nat) {
    NoEmptyReads(trace) && (maxLive == 0 ==> Exhausted !in trace)
  }

  function Seen(calls: seq<Event>, e: Option<Event>): seq<Event> {
    if e.Some? then calls + [e.value] else calls
  }

  // One read attempt takes `calls` and then its outcome e off the script; without a block
  // nothing is waited for, and with no outcome the script is at its end.
  predicate Happened(before: seq<Event>, calls: seq<Event>, e: Option<Event>, after: seq<Event>) {
    && AllLocal(calls)
    && (e.Some? ==> !LocalCall(e.value) && (e.value.Chunk? ==> e.value.bytes != []))
    && NoEmptyReads(Seen(calls, e))
    && (e.Some? && e.value.Exhausted? ==> calls == [])
    && (e.None? ==> after == [])
    && Flat(before) == Flat(Seen(calls, e)) + Flat(after)
  }

  lemma FlatOutcome(calls: seq<Event>, e: Event, rest: seq<Event>)
    ensures Flat(calls) + (FlatOne(e) + Flat(rest)) == Flat(calls + [e]) + Flat(rest)
  {
    FlatConcat(calls, [e]);
    assert [e][1..] == [] && FlatOne(e) + [] == FlatOne(e);
    ConcatAssociative(Flat(calls), FlatOne(e), Flat(rest));
  }

  // Bytes and the end of the stream are taken off what is still to come.
  lemma Progress(calls: seq<Event>, e: Event)
    requires e.Eof? || (e.Chunk? && e.bytes != [])
    ensures |Flat(calls + [e])| > 0
  {
    FlatConcat(calls, [e]);
    assert [e][1..] == [] && FlatOne(e) + [] == FlatOne(e);
    if e.Chunk? {
      assert FlatOne(e)[0] == ByteItem(e.bytes[0]);
    }
  }

  // The parts of the invariant of a Connection.
  datatype Part = PoolPart | ChainPart | WindowPart | CountPart | BytesPart

  class TCPConnection {
    const framer: Option<Framer>
    const native: LengthCodec.Endian
    const pool: MessageBlockPool
    const chain: BlockChain          // receive_chain_
    const current: array<BlockRef>   // *current_block_
    var state: ConnectionState
    var eof: bool                    // receive_eof_
    var ended: bool                  // receive_ended_
    var open: bool                   // message_open_
    var aborted: bool
    var script: seq<Event>
    ghost var lent: multiset<DataBlock>   // the references of the Messages handed out
    ghost var given: seq<BlockRef>        // every range ever handed out
    ghost var delivered: seq<Byte>        // what these ranges held when they were handed out

    /** Every reference is counted, the socket's window is behind every range that somebody
        holds, and what was handed out still holds what it did then. */
    ghost predicate Valid()
      reads this`lent, this`given, this`delivered, pool, chain, chain.data, current
    {
      Between(Invalid)
    }

    // The same with a chunk that has been read and is not appended yet.
    ghost predicate Between(chunk: BlockRef)
      reads this`lent, this`given, this`delivered, pool, chain, chain.data, current
    {
      current.Length == 1 && forall part: Part :: Holds(part, chunk)
    }

    ghost predicate Holds(part: Part, chunk: BlockRef)
      reads this`lent, this`given, this`delivered, pool, chain, chain.data, current
    {
      match part
      case PoolPart => pool.blockSize >= 4 && pool.Valid()
      case ChainPart => chain.Valid() && chain.data != current
      case WindowPart =>
        && current.Length == 1 && Positioned(current[0], pool.blockSize)
        && Behind(chain.refs + given, current[0]) && Behind([chunk], current[0]) && (chunk.blk == null || Fits(chunk))
      case CountPart =>
        current.Length == 1 && pool.counts == lent + Held(chain.refs) + current[0].Owned() + chunk.Owned()
      case BytesPart => View(pool.memory, given) == delivered
    }

    // All parts at once.
    ghost predicate Facts(chunk: BlockRef)
      reads this`lent, this`given, this`delivered, pool, chain, chain.data, current
    {
      && Shaped() && Behind([chunk], current[0]) && (chunk.blk == null || Fits(chunk))
      && pool.counts == lent + Held(chain.refs) + current[0].Owned() + chunk.Owned()
      && View(pool.memory, given) == delivered
    }

    ghost predicate Shaped()
      reads this`given, pool, chain, chain.data, current
    {
      && pool.blockSize >= 4 && current.Length == 1 && chain.data != current
      && pool.Valid() && chain.Valid()
      && Positioned(current[0], pool.blockSize) && Behind(chain.refs + given, current[0])
    }

    lemma Unfold(chunk: BlockRef)
      requires Between(chunk)
      ensures Facts(chunk)
    {
      assert Holds(PoolPart, chunk) && Holds(ChainPart, chunk) && Holds(WindowPart, chunk);
      assert Holds(CountPart, chunk) && Holds(BytesPart, chunk);
    }

    lemma Fold(chunk: BlockRef)
      requires Facts(chunk)
      ensures Between(chunk)
    {
    }

    // The bytes received and not yet delivered.
    ghost function Buffered(): seq<Byte>
      reads chain, pool
    {
      View(pool.memory, chain.refs)
    }

    // The Connection as module Receive sees it.
    ghost function Abs(): Conn
      reads this`state, this`eof, this`ended, this`open, this`aborted, chain, pool
    {
      Conn(state, Buffered(), eof, ended, open, aborted)
    }

    // The same without the buffered bytes.
    ghost function Flags(): Conn
      reads this`state, this`eof, this`ended, this`open, this`aborted
    {
      Conn(state, [], eof, ended, open, aborted)
    }

    // An accepted or connected Connection.
    constructor (framer: Option<Framer>, native: LengthCodec.Endian, pool: MessageBlockPool, script: seq<Event>)
      requires pool.blockSize >= 4 && pool.Valid() && pool.counts == multiset{}
      requires Scripted(script) && (framer.Some? ==> Usable(framer.value))
      ensures Valid() && Abs() == Fresh && given == [] && lent == multiset{}
      ensures this.framer == framer && this.pool == pool && this.script == script
      ensures fresh(chain.Repr()) && fresh(current)
    {
      this.framer, this.native, this.pool, this.script := framer, native, pool, script;
      chain := new BlockChain();
      current := new BlockRef[1](_ => Invalid);
      state, eof, ended, open, aborted := ESTABLISHED, false, false, false, false;
      lent, given, delivered := multiset{}, [], [];
      new;
      Fold(Invalid);
    }

    // ---- close(), abort(), and the end of a send ----

    // close() up to its wait for the peer.
    method BeginClose()
      modifies this`state
      ensures Flags() == CloseBegins(old(Flags()))
    {
      if state == CLOSED || state == CLOSING {
        return;
      }
      state := CLOSING;
    }

    method EndClose()
      modifies this`state
      ensures Flags() == CloseEnds(old(Flags()))
    {
      state := CLOSED;
    }

    method Abort()
      modifies this`state, this`aborted
      ensures Flags() == Aborts(old(Flags()))
    {
      aborted := true;
      state := CLOSED;
    }

    // The write of a send() completes.
    method EndSend(failure: Option<ErrorReason>) returns (result: SendResult)
      modifies this`state
      ensures (Flags(), result) == SendEnds(old(Flags()), failure)
    {
      if failure.None? {
        result := Sent;
      } else if failure.value == LOCAL_ABORT && !aborted {
        result := SendFailed(SEND_ERROR, INVALID_STATE);
      } else {
        state := CLOSED;
        result := SendFailed(CONNECTION_ERROR, failure.value);
      }
    }

    method RunCall(call: Event)
      requires LocalCall(call)
      modifies this`state, this`aborted
      ensures Flags() == After(old(Flags()), call)
    {
      match call {
        case CloseCalled => BeginClose();
        case CloseFinished => EndClose();
        case AbortCalled => Abort();
        case SendCompleted(failure) => var _ := EndSend(failure);
      }
    }

    method Meanwhile(calls: seq<Event>)
      requires AllLocal(calls)
      modifies this`state, this`aborted
      ensures Flags() == AfterAll(old(Flags()), calls)
    {
      ghost var before := Flags();
      for i := 0 to |calls|
        invariant Flags() == AfterAll(before, calls[..i])
      {
        AfterAllSnoc(before, calls[..i], calls[i]);
        assert calls[..i + 1] == calls[..i] + [calls[i]];
        RunCall(calls[i]);
      }
      assert calls[..|calls|] == calls;
    }

    // What the application does before the read completes.
    method RunCalls() returns (ghost calls: seq<Event>)
      requires Scripted(script)
      modifies this`state, this`aborted, this`script
      ensures Scripted(script) && old(script) == calls + script && AllLocal(calls)
      ensures script != [] ==> !LocalCall(script[0])
      ensures Flags() == AfterAll(old(Flags()), calls)
    {
      calls := [];
      ghost var before := Flags();
      while script != [] && LocalCall(script[0])
        invariant Scripted(script) && old(script) == calls + script && AllLocal(calls)
        invariant Flags() == AfterAll(before, calls)
        decreases |script|
      {
        AfterAllSnoc(before, calls, script[0]);
        calls := calls + [script[0]];
        RunCall(script[0]);
        script := script[1..];
      }
    }

    // Takes the next event off the script, of a chunk no more than n bytes.
    method NextEvent(n: nat) returns (e: Event)
      requires Scripted(script) && script != [] && !LocalCall(script[0]) && n > 0
      modifies this`script
      ensures Scripted(script) && !e.Exhausted? && !LocalCall(e)
      ensures Flat(old(script)) == FlatOne(e) + Flat(script)
      ensures e.Chunk? ==> 0 < |e.bytes| <= n
    {
      var head, tail := script[0], script[1..];
      assert script == [head] + tail;
      if head.Chunk? && |head.bytes| > n {
        FlatCut(head.bytes, n, tail);
        e := Chunk(head.bytes[..n]);
        script := [Chunk(head.bytes[n..])] + tail;
      } else {
        e := head;
        script := tail;
      }
    }

    // ---- One read ----

    lemma NoChunk(chunk: BlockRef)
      requires chunk.blk == null
      ensures Valid() <==> Between(chunk)
    {
      if Valid() {
        Unfold(Invalid);
        Fold(chunk);
      }
      if Between(chunk) {
        Unfold(chunk);
        Fold(Invalid);
      }
    }

    // start_read() up to the read.
    method BeginRead() returns (ok: bool)
      requires Valid()
      modifies current, pool`live, pool`counts, pool`blocks
      ensures Valid() && (ok <==> current[0].blk != null)
      ensures !ok ==> pool.maxLive != 0 && |old(pool.blocks)| >= pool.maxLive
    {
      Unfold(Invalid);
      ok := StartRead(current, pool, lent + Held(chain.refs), chain.refs + given);
      Fold(Invalid);
    }

    // The socket stores what it has read in the window.
    method Store(bytes: seq<Byte>)
      requires Valid() && current[0].blk != null && current[0].begin + |bytes| <= pool.blockSize
      modifies pool`memory
      ensures Valid() && Buffered() == old(Buffered())
      ensures Slice(pool.memory, current[0].(end := current[0].begin + |bytes|)) == bytes
    {
      Unfold(Invalid);
      BehindConcat(chain.refs, given, current[0]);
      StoredOnlyInWindow(pool.memory, current[0], bytes, chain.refs);
      StoredOnlyInWindow(pool.memory, current[0], bytes, given);
      pool.memory := Stored(pool.memory, current[0], bytes);
      Fold(Invalid);
    }

    // finish_read() after n bytes arrived.
    method FinishBytes(n: nat) returns (chunk: BlockRef)
      requires Valid() && current[0].blk != null && 0 < n && current[0].begin + n <= pool.blockSize
      modifies current, pool`live, pool`counts, pool`blocks
      ensures Between(chunk) && chunk == old(current[0].(end := current[0].begin + n)) && Fits(chunk)
    {
      Unfold(Invalid);
      chunk := FinishRead(current, n, pool, lent + Held(chain.refs), chain.refs + given);
      BehindConcat(chain.refs + given, [chunk], current[0]);
      SumSwap(lent + Held(chain.refs), chunk.Owned(), current[0].Owned());
      Fold(chunk);
    }

    // The read completes with bytes.
    method ArriveBytes(bytes: seq<Byte>) returns (chunk: BlockRef)
      requires Valid() && current[0].blk != null && bytes != [] && current[0].begin + |bytes| <= pool.blockSize
      modifies current, pool
      ensures Between(chunk) && chunk.blk != null && Buffered() == old(Buffered())
      ensures Slice(pool.memory, chunk) == bytes
    {
      ghost var c := current[0].(end := current[0].begin + |bytes|);
      Store(bytes);
      assert current[0].(end := current[0].begin + |bytes|) == c;
      chunk := FinishBytes(|bytes|);
      assert chunk == c;
    }

    // The read completes with the next event, and finish_read() sees it. None: nothing has
    // come yet.
    method CompleteRead() returns (e: Option<Event>, chunk: BlockRef)
      requires Valid() && Scripted(script) && current[0].blk != null && (script != [] ==> !LocalCall(script[0]))
      modifies this`script, this`eof, current, pool
      ensures Between(chunk) && Buffered() == old(Buffered())
      ensures Slice(pool.memory, chunk) == ReadBytes(e) && (chunk.blk != null <==> ReadBytes(e) != [])
      ensures Scripted(script) && Happened(old(script), [], e, script) && (e.Some? ==> !e.value.Exhausted?)
      ensures Flags() == AfterRead(old(Flags()), e)
    {
      if script == [] {
        e, chunk := None, Invalid;
        NoChunk(chunk);
      } else {
        assert Holds(PoolPart, Invalid) && Holds(WindowPart, Invalid);
        var event := NextEvent(pool.blockSize - current[0].begin);
        FlatOutcome([], event, script);
        e := Some(event);
        chunk := See(event);
      }
    }

    // finish_read() with the outcome of the read.
    method See(event: Event) returns (chunk: BlockRef)
      requires Valid() && current[0].blk != null
      requires event.Chunk? ==> event.bytes != [] && current[0].begin + |event.bytes| <= pool.blockSize
      modifies this`eof, current, pool
      ensures Between(chunk) && Buffered() == old(Buffered())
      ensures Slice(pool.memory, chunk) == ReadBytes(Some(event)) && (chunk.blk != null <==> event.Chunk?)
      ensures Flags() == AfterRead(old(Flags()), Some(event))
    {
      if event.Chunk? {
        chunk := ArriveBytes(event.bytes);
      } else {
        chunk := Invalid;
        NoChunk(chunk);
        if event.Eof? || event.Truncated? {
          eof := true;
        }
      }
    }

    // One read attempt: start_read(), what happens while it is pending, finish_read().
    method ReadOne() returns (e: Option<Event>, chunk: BlockRef, ghost calls: seq<Event>)
      requires Valid() && Scripted(script)
      modifies this`state, this`aborted, this`script, this`eof, current, pool
      ensures Between(chunk) && Buffered() == old(Buffered())
      ensures Slice(pool.memory, chunk) == ReadBytes(e) && (chunk.blk != null <==> ReadBytes(e) != [])
      ensures Scripted(script) && Happened(old(script), calls, e, script)
      ensures Possible(Seen(calls, e), pool.maxLive)
      ensures Flags() == AfterRead(AfterAll(old(Flags()), calls), e)
    {
      var ok := BeginRead();
      if ok {
        e, chunk, calls := Await();
      } else {
        e, chunk, calls := Some(Exhausted), Invalid, [];
        NoChunk(chunk);
        FlatOutcome([], Exhausted, script);
      }
    }

    method Await() returns (e: Option<Event>, chunk: BlockRef, ghost calls: seq<Event>)
      requires Valid() && Scripted(script) && current[0].blk != null
      modifies this`state, this`aborted, this`script, this`eof, current, pool
      ensures Between(chunk) && Buffered() == old(Buffered())
      ensures Slice(pool.memory, chunk) == ReadBytes(e) && (chunk.blk != null <==> ReadBytes(e) != [])
      ensures Scripted(script) && Happened(old(script), calls, e, script) && (e.Some? ==> !e.value.Exhausted?)
      ensures Flags() == AfterRead(AfterAll(old(Flags()), calls), e)
    {
      calls := RunCalls();
      ghost var left := script;
      e, chunk := CompleteRead();
      FlatCalls(calls, left, e, script);
    }

    lemma FlatCalls(calls: seq<Event>, left: seq<Event>, e: Option<Event>, after: seq<Event>)
      requires AllLocal(calls) && Happened(left, [], e, after) && (e.Some? ==> !e.value.Exhausted?)
      ensures Happened(calls + left, calls, e, after)
    {
      FlatConcat(calls, left);
      assert [] + Seen([], e) == Seen([], e);
      if e.Some? {
        assert Seen([], e) == [e.value] && Seen(calls, e) == calls + [e.value];
      }
      FlatConcat(calls, Seen([], e));
      assert calls + Seen([], e) == Seen(calls, e);
      ConcatAssociative(Flat(calls), Flat(Seen([], e)), Flat(after));
    }

    // ---- Delivering ----

    // receive_chain_->append() of what a read brought.
    method AppendChunk(chunk: BlockRef)
      requires Between(chunk)
      modifies pool`live, pool`counts, pool`blocks, chain, chain.data
      ensures Valid() && Buffered() == old(Buffered()) + Slice(pool.memory, chunk)
      ensures chain.data == old(chain.data) || fresh(chain.data)
    {
      Unfold(chunk);
      BehindStill(chain.refs, chunk);
      AppendCounted(chunk);
      Fold(Invalid);
    }

    method AppendCounted(chunk: BlockRef)
      requires chain.Valid() && pool.Valid() && chain.data != current && current.Length == 1
      requires chunk.blk == null || Fits(chunk)
      requires pool.counts == lent + Held(chain.refs) + current[0].Owned() + chunk.Owned()
      modifies pool`live, pool`counts, pool`blocks, chain, chain.data
      ensures chain.Valid() && pool.Valid() && chain.data != current && chain.refs == Appended(old(chain.refs), chunk)
      ensures pool.counts == lent + Held(chain.refs) + current[0].Owned()
      ensures Buffered() == old(Buffered()) + Slice(pool.memory, chunk)
      ensures chain.data == old(chain.data) || fresh(chain.data)
    {
      AppendedIsConcat(pool.memory, chain.refs, chunk);
      SumSwap(lent, Held(chain.refs), current[0].Owned());
      chain.Append(chunk, pool, lent + current[0].Owned());
      SumSwap(lent, Held(chain.refs), current[0].Owned());
    }

    // Appending the chunk leaves everything behind the window.
    lemma BehindStill(refs: seq<BlockRef>, chunk: BlockRef)
      requires current.Length == 1 && Behind(refs + given, current[0]) && Behind([chunk], current[0])
      ensures Behind(Appended(refs, chunk) + given, current[0])
    {
      BehindConcat(refs, given, current[0]);
      BehindAppended(refs, chunk, current[0]);
      BehindConcat(Appended(refs, chunk), given, current[0]);
    }

    // receive_chain_->consume_front()
    method DropFront(n: nat)
      requires Valid()
      modifies pool`live, pool`counts, pool`blocks, chain, chain.data
      ensures Valid() && chain.data == old(chain.data)
      ensures Buffered() == Left(old(Buffered()), 0, n)
    {
      Unfold(Invalid);
      DroppedIsSuffix(pool.memory, chain.refs, n);
      StillBehind(chain.refs, given, n);
      DropCounted(n);
      Fold(Invalid);
    }

    method DropCounted(n: nat)
      requires chain.Valid() && pool.Valid() && chain.data != current && current.Length == 1
      requires pool.counts == lent + Held(chain.refs) + current[0].Owned()
      modifies pool`live, pool`counts, pool`blocks, chain, chain.data
      ensures chain.Valid() && pool.Valid() && chain.data == old(chain.data) && chain.refs == Dropped(old(chain.refs), n)
      ensures pool.counts == lent + Held(chain.refs) + current[0].Owned()
    {
      SumSwap(lent, Held(chain.refs), current[0].Owned());
      chain.ConsumeFront(n, pool, lent + current[0].Owned());
      SumSwap(lent, Held(chain.refs), current[0].Owned());
    }

    lemma StillBehind(refs: seq<BlockRef>, given: seq<BlockRef>, n: nat)
      requires current.Length == 1 && Behind(refs + given, current[0]) && Canonical(refs)
      ensures Behind(Dropped(refs, n) + given, current[0])
    {
      BehindConcat(refs, given, current[0]);
      BehindDropped(refs, n, current[0]);
      BehindConcat(Dropped(refs, n), given, current[0]);
    }

    // make_chain(receive_chain_->first()): the slice belongs to a Message.
    method TakeFront(n: nat) returns (slice: BlockChain)
      requires Valid()
      modifies this`lent, this`given, this`delivered, pool`live, pool`counts, pool`blocks
      ensures Valid() && fresh(slice.Repr()) && slice.Valid() && slice.refs == Taken(chain.refs, n)
      ensures Gave(slice.refs, Cut(Buffered(), 0, n), old(lent), old(given), old(delivered))
    {
      HandOut(Taken(chain.refs, n), Cut(Buffered(), 0, n), n);
      slice := Share(n);
    }

    // The ranges go to a Message, whose references have yet to be taken.
    ghost method HandOut(refs: seq<BlockRef>, bytes: seq<Byte>, n: nat)
      requires Valid() && refs == Taken(chain.refs, n) && bytes == Cut(Buffered(), 0, n)
      modifies this`lent, this`given, this`delivered
      ensures Owing(n) && Gave(refs, bytes, old(lent), old(given), old(delivered))
    {
      HandingOut(refs, bytes, n);
      Record(refs, bytes);
    }

    ghost method Record(refs: seq<BlockRef>, bytes: seq<Byte>)
      modifies this`lent, this`given, this`delivered
      ensures Gave(refs, bytes, old(lent), old(given), old(delivered))
    {
      lent, given, delivered := lent + Held(refs), given + refs, delivered + bytes;
    }

    lemma HandingOut(refs: seq<BlockRef>, bytes: seq<Byte>, n: nat)
      requires Valid() && refs == Taken(chain.refs, n) && bytes == Cut(Buffered(), 0, n)
      ensures Owes(refs, lent + Held(refs), given + refs, delivered + bytes)
    {
      Unfold(Invalid);
      GivenToo(refs, bytes, n);
      BehindTakenToo(chain.refs, given, n);
      LentToo(lent, Held(chain.refs), current[0].Owned(), Held(refs));
    }

    lemma LentToo(lent: multiset<DataBlock>, held: multiset<DataBlock>, owned: multiset<DataBlock>,
                  refs: multiset<DataBlock>)
      ensures lent + held + owned + refs == (lent + refs) + held + owned
      ensures held <= lent + held + owned
    {
    }

    lemma GivenToo(refs: seq<BlockRef>, bytes: seq<Byte>, n: nat)
      requires chain.Valid() && refs == Taken(chain.refs, n) && bytes == Cut(Buffered(), 0, n)
      ensures View(pool.memory, given + refs) == View(pool.memory, given) + bytes
    {
      TakenIsPrefix(pool.memory, chain.refs, n);
      ViewConcat(pool.memory, given, refs);
    }

    lemma BehindTakenToo(refs: seq<BlockRef>, given: seq<BlockRef>, n: nat)
      requires current.Length == 1 && Behind(refs + given, current[0]) && Canonical(refs)
      ensures Behind(refs + (given + Taken(refs, n)), current[0])
    {
      BehindConcat(refs, given, current[0]);
      BehindTaken(refs, n, current[0]);
      BehindConcat(given, Taken(refs, n), current[0]);
      BehindConcat(refs, given + Taken(refs, n), current[0]);
    }

    ghost predicate Owing(n: nat)
      reads this`lent, this`given, this`delivered, pool, chain, chain.data, current
    {
      Owes(Taken(chain.refs, n), lent, given, delivered)
    }

    // With the references of `refs` lent all is in order, but they are not counted yet.
    ghost predicate Owes(refs: seq<BlockRef>, lent: multiset<DataBlock>, given: seq<BlockRef>, delivered: seq<Byte>)
      reads pool, chain, chain.data, current
    {
      && pool.blockSize >= 4 && current.Length == 1 && chain.data != current
      && pool.Valid() && chain.Valid()
      && Positioned(current[0], pool.blockSize) && Behind(chain.refs + given, current[0])
      && pool.counts + Held(refs) == lent + Held(chain.refs) + current[0].Owned()
      && Held(chain.refs) <= pool.counts
      && View(pool.memory, given) == delivered
    }

    method Share(n: nat) returns (slice: BlockChain)
      requires Owing(n)
      modifies pool`live, pool`counts, pool`blocks
      ensures Valid() && fresh(slice.Repr()) && slice.Valid() && slice.refs == Taken(chain.refs, n)
    {
      HeldNames(chain.refs);
      slice := chain.MakeFirst(n, pool);
      Fold(Invalid);
    }

    // An Emit that is in order: the record leaves the chain as a Message.
    method Deliver(discard: nat, deliver: nat, eom: bool, gather: bool) returns (message: Message)
      requires Valid()
      modifies this`lent, this`given, this`delivered, this`open
      modifies pool`live, pool`counts, pool`blocks, chain, chain.data
      ensures Valid() && chain.data == old(chain.data)
      ensures Gives(message, Cut(old(Buffered()), discard, deliver), eom) && fresh(message.backing.chain.Repr())
      ensures Gave(message.backing.chain.refs, Cut(old(Buffered()), discard, deliver), old(lent), old(given), old(delivered))
      ensures Buffered() == Left(old(Buffered()), discard, deliver) && open == !eom && CopiedIff(message, gather)
    {
      CutFromRest(Buffered(), discard, deliver);
      if discard > 0 {
        DropFront(discard);
      }
      var slice := DeliverFront(deliver);
      open := !eom;
      message := MakeMessage(slice, eom, gather);
    }

    method DeliverFront(n: nat) returns (slice: BlockChain)
      requires Valid()
      modifies this`lent, this`given, this`delivered, pool`live, pool`counts, pool`blocks, chain, chain.data
      ensures Valid() && chain.data == old(chain.data)
      ensures fresh(slice.Repr()) && slice.Valid() && View(pool.memory, slice.refs) == Cut(old(Buffered()), 0, n)
      ensures Gave(slice.refs, Cut(old(Buffered()), 0, n), old(lent), old(given), old(delivered))
      ensures Buffered() == Left(old(Buffered()), 0, n)
    {
      assert Holds(ChainPart, Invalid);
      TakenIsPrefix(pool.memory, chain.refs, n);
      slice := TakeFront(n);
      DropFront(n);
    }

    // A Message of the chain with these bytes.
    ghost predicate Gives(message: Message, bytes: seq<Byte>, eom: bool)
      reads message, if message.gathered == null then {} else {message.gathered}
      reads if message.backing.Chained? then {message.backing.chain, message.backing.chain.data, message.backing.pool} else {}
    {
      && message.Valid() && message.backing.Chained? && message.backing.pool == pool
      && message.Payload() == bytes && message.endOfMessage == eom
    }

    // The Message has been copied into one piece exactly if that was asked for, and it lies
    // in several blocks.
    ghost predicate CopiedIff(message: Message, gather: bool)
      reads message, if message.backing.Chained? then {message.backing.chain} else {}
    {
      message.gathered != null <==> gather && message.backing.Chained? && |message.backing.chain.refs| >= 2
    }

    // There is nothing to copy in it.
    ghost predicate NeverCopied(message: Message)
      reads message, if message.backing.Chained? then {message.backing.chain} else {}
    {
      CopiedIff(message, true) && CopiedIff(message, false)
    }

    // A Message is copied only when the framer says so; of the library's, Passthrough may.
    ghost predicate CopiedAsAsked(reply: Reply, mode: Option<Framer>)
      reads if reply.GotMessage? then {reply.message} else {}
      reads if reply.GotMessage? && reply.message.backing.Chained? then {reply.message.backing.chain} else {}
    {
      reply.GotMessage? && (mode.Some? ==> !mode.value.Custom?) ==>
        CopiedIff(reply.message, mode.Some? && mode.value.Passthrough? && mode.value.gather)
    }

    // What was handed out since.
    ghost predicate Gave(refs: seq<BlockRef>, bytes: seq<Byte>,
                         lent: multiset<DataBlock>, given: seq<BlockRef>, delivered: seq<Byte>)
      reads this`lent, this`given, this`delivered
    {
      this.lent == lent + Held(refs) && this.given == given + refs && this.delivered == delivered + bytes
    }

    // The Message's chain has no storage in common with the Connection.
    ghost predicate Apart(message: Message)
      reads chain, if message.backing.Chained? then {message.backing.chain} else {}
    {
      message.backing.Chained? ==>
        message.backing.chain != chain && message.backing.chain.data !in {chain.data, current}
    }

    method MakeMessage(slice: BlockChain, eom: bool, gather: bool) returns (message: Message)
      requires slice.Valid()
      ensures fresh(message) && Gives(message, View(pool.memory, slice.refs), eom) && message.backing.chain == slice
      ensures CopiedIff(message, gather)
    {
      message := new Message(Chained(slice, pool), eom);
      if gather {
        var _ := message.AsBytes();
      }
    }

    // ---- receive() ----

    // The reply is the outcome, and only a Message hands anything out.
    ghost predicate Answered(reply: Reply, out: Outcome,
                             lent: multiset<DataBlock>, given: seq<BlockRef>, delivered: seq<Byte>)
      reads this`lent, this`given, this`delivered
      reads if reply.GotMessage? then {reply.message} else {}
      reads if reply.GotMessage? && reply.message.gathered != null then {reply.message.gathered} else {}
      reads if reply.GotMessage? && reply.message.backing.Chained? then
              {reply.message.backing.chain, reply.message.backing.chain.data, reply.message.backing.pool}
            else {}
    {
      && Gave(reply.Refs(), Body(out), lent, given, delivered)
      && (reply.GotMessage? <==> out.Received?)
      && (reply.GotMessage? ==> Gives(reply.message, out.body, out.endOfMessage))
      && (reply.GotError? ==> out == Failure(reply.event, reply.reason))
      && (reply.StillWaiting? ==> out == Pending)
    }

    // The call has done the step, and met nothing it did not take into account.
    ghost predicate Did(step: Step, out: Outcome)
      reads this`state, this`eof, this`ended, this`open, this`aborted, chain, pool
    {
      step.conn == Abs() && step.outcome == out && step.rest == []
    }

    // receive_failure()
    method Fail(event: ErrorEvent, reason: ErrorReason) returns (reply: Reply, ghost out: Outcome)
      modifies this`ended, this`state
      ensures Answered(reply, out, lent, given, delivered) && reply.GotError?
      ensures (Abs(), out) == ReceiveFailure(old(Abs()), event, reason)
      ensures out == if reason == LOCAL_ABORT && !aborted then Failure(RECEIVE_ERROR, INVALID_STATE)
                     else Failure(event, reason)
      ensures state == if out.event == CONNECTION_ERROR then CLOSED else old(state)
      ensures ended == (old(ended) || (eof && out.event != CONNECTION_ERROR))
    {
      var event, reason := event, reason;
      if reason == LOCAL_ABORT && !aborted {
        event, reason := RECEIVE_ERROR, INVALID_STATE;
      }
      if event == CONNECTION_ERROR {
        state := CLOSED;
      } else if eof {
        ended := true;
      }
      reply, out := GotError(event, reason), Failure(event, reason);
    }

    // An Emit: delivered, or refused when it is out of order.
    method EmitOne(discard: nat, deliver: nat, eom: bool, gather: bool) returns (reply: Reply, ghost out: Outcome)
      requires Valid()
      modifies this`ended, this`open, this`state, this`lent, this`given, this`delivered
      modifies pool`live, pool`counts, pool`blocks, chain, chain.data
      ensures Valid() && chain.data == old(chain.data)
      ensures Answered(reply, out, old(lent), old(given), old(delivered))
      ensures reply.GotMessage? ==> fresh(reply.message.backing.chain.Repr()) && CopiedIff(reply.message, gather)
      ensures Did(EmitRecord(old(Abs()), discard, deliver, eom, []), out)
    {
      var consumed := SizeAdd(discard, deliver);
      assert Holds(ChainPart, Invalid);
      ViewLength(pool.memory, chain.refs);
      if consumed == 0 || consumed > chain.size {
        reply, out := Fail(RECEIVE_ERROR, DEFRAMING_FAILED);
      } else {
        reply, out := GiveRecord(discard, deliver, eom, gather);
      }
    }

    method GiveRecord(discard: nat, deliver: nat, eom: bool, gather: bool) returns (reply: Reply, ghost out: Outcome)
      requires Valid()
      modifies this`open, this`lent, this`given, this`delivered
      modifies pool`live, pool`counts, pool`blocks, chain, chain.data
      ensures Valid() && chain.data == old(chain.data)
      ensures Answered(reply, out, old(lent), old(given), old(delivered))
      ensures reply.GotMessage? && fresh(reply.message.backing.chain.Repr()) && CopiedIff(reply.message, gather)
      ensures out == Received(Cut(old(Buffered()), discard, deliver), eom)
      ensures Abs() == old(Abs()).(buf := Left(old(Buffered()), discard, deliver), open := !eom)
    {
      out := Received(Cut(Buffered(), discard, deliver), eom);
      var message := Deliver(discard, deliver, eom, gather);
      reply := GotMessage(message);
    }

    // The framer needs more, but the stream has ended.
    method EndOfStream() returns (reply: Reply, ghost out: Outcome)
      requires Valid()
      modifies this`ended, this`open, this`state, pool`live, pool`counts, pool`blocks, chain, chain.data
      ensures Valid() && chain.data == old(chain.data)
      ensures Answered(reply, out, lent, given, delivered)
      ensures reply.GotMessage? ==> fresh(reply.message.backing.chain.Repr()) && NeverCopied(reply.message)
      ensures Did(AtEnd(old(Abs()), []), out)
    {
      assert Holds(ChainPart, Invalid);
      ViewLength(pool.memory, chain.refs);
      if open || chain.size > 0 {
        reply, out := Incomplete();
      } else {
        reply, out := EndCleanly();
      }
    }

    method Incomplete() returns (reply: Reply, ghost out: Outcome)
      requires Valid()
      modifies this`ended, this`open, this`state, pool`live, pool`counts, pool`blocks, chain, chain.data
      ensures Valid() && chain.data == old(chain.data)
      ensures Answered(reply, out, lent, given, delivered) && reply.GotError?
      ensures (Abs(), out) == ReceiveFailure(old(Abs()).(buf := [], open := false), RECEIVE_ERROR, DEFRAMING_FAILED)
    {
      DropAll();
      reply, out := Fail(RECEIVE_ERROR, DEFRAMING_FAILED);
    }

    // What is left was never a complete Message.
    method DropAll()
      requires Valid()
      modifies this`open, pool`live, pool`counts, pool`blocks, chain, chain.data
      ensures Valid() && chain.data == old(chain.data) && Abs() == old(Abs()).(buf := [], open := false)
    {
      assert Holds(ChainPart, Invalid);
      ViewLength(pool.memory, chain.refs);
      DropFront(chain.size);
      open := false;
    }

    method EndCleanly() returns (reply: Reply, ghost out: Outcome)
      requires Valid()
      modifies this`ended
      ensures Valid() && Answered(reply, out, lent, given, delivered)
      ensures reply.GotMessage? && fresh(reply.message.backing.chain.Repr()) && NeverCopied(reply.message)
      ensures out == Received([], true) && Abs() == old(Abs()).(ended := true)
    {
      SetEnded();
      var message := EmptyMessage();
      reply, out := GotMessage(message), Received([], true);
    }

    method SetEnded()
      modifies this`ended
      ensures Flags() == old(Flags()).(ended := true)
    {
      ended := true;
    }

    // The final, empty Message.
    method EmptyMessage() returns (message: Message)
      ensures fresh(message) && Gives(message, [], true) && fresh(message.backing.chain.Repr())
      ensures message.backing.chain.refs == [] && NeverCopied(message)
    {
      var empty := new BlockChain();
      message := MakeMessage(empty, true, false);
    }

    // framer_->parse() over the receive chain.
    method AskFramer(f: Framer) returns (pr: ParseResult)
      requires chain.Valid() && Usable(f)
      ensures pr == Parse(f, Buffered(), eof)
    {
      var entries := chain.Entries();
      match f {
        case LengthPrefixed(width, order) =>
          pr := Readers.ParseRecordAt(pool.memory, entries, chain.size, width, order, eof, native);
        case Passthrough(gather) =>
          ViewLength(pool.memory, entries);
          pr := if !eof || chain.size == 0 then NeedMore(0) else Emit(0, chain.size, true, gather);
        case Custom(parse, _) =>
          var bytes := Readers.Gathered(pool.memory, entries, chain.size);
          pr := parse(bytes, eof);
      }
    }

    // t is the Connection before the outcome e of the read.
    method EndRead(ghost t: Conn, e: Option<Event>) returns (reply: Reply, ghost out: Outcome)
      requires Abs() == AfterRead(t, e) && (e.Some? ==> ReadFailed(e.value))
      modifies this`ended, this`state
      ensures Answered(reply, out, lent, given, delivered) && !reply.GotMessage?
      ensures Did(if e.None? then Step(t, Pending, [], []) else ReadFails(t, e.value, []), out)
    {
      if e.None? {
        reply, out := StillWaiting, Pending;
      } else {
        FailureOfRead(t, e.value);
        var (event, reason) := Reported(e.value);
        reply, out := Fail(event, reason);
      }
    }

    // A read attempt of the loop. It goes on after bytes or the clean end of the stream.
    method ReadMore(f: Framer) returns (done: bool, reply: Reply, ghost out: Outcome, ghost seen: seq<Event>)
      requires Valid() && Scripted(script) && Usable(f) && Parse(f, Buffered(), eof).NeedMore? && !eof
      modifies this`state, this`aborted, this`script, this`eof, this`ended, current, pool, chain, chain.data
      ensures Valid() && Scripted(script) && (chain.data == old(chain.data) || fresh(chain.data))
      ensures Flat(old(script)) == Flat(seen) + Flat(script)
      ensures Possible(seen, pool.maxLive) && (done && out.Pending? ==> script == [])
      ensures done ==> Answered(reply, out, lent, given, delivered) && !reply.GotMessage?
      ensures done ==> Did(ReceiveLoop(f, old(Abs()), seen), out)
      ensures !done ==> Reaches(f, old(Abs()), seen, Abs()) && |Flat(script)| < |Flat(old(script))|
    {
      ghost var s := Abs();
      var e, chunk, calls := ReadOne();
      seen := Seen(calls, e);
      ghost var left := script;
      AfterCallsKeepsBytes(Flags(), [], s.buf);
      done, reply, out := Judge(s, e, chunk, calls);
      assert script == left;
      if done {
        LoopEnds(f, s, calls, e);
      } else {
        LoopGoesOn(f, s, calls, e.value);
        Progress(calls, e.value);
      }
    }

    // What the loop does with the outcome e of the read; s is the Connection before it.
    method Judge(ghost s: Conn, e: Option<Event>, chunk: BlockRef, ghost calls: seq<Event>)
      returns (done: bool, reply: Reply, ghost out: Outcome)
      requires Between(chunk)
      requires Slice(pool.memory, chunk) == ReadBytes(e) && (chunk.blk != null <==> ReadBytes(e) != [])
      requires AllLocal(calls) && (e.Some? ==> !LocalCall(e.value) && (e.value.Chunk? ==> e.value.bytes != []))
      requires Buffered() == s.buf && Flags() == AfterRead(AfterAll(s.(buf := []), calls), e)
      modifies this`ended, this`state, pool`live, pool`counts, pool`blocks, chain, chain.data
      ensures Valid() && (chain.data == old(chain.data) || fresh(chain.data))
      ensures done <==> e.None? || ReadFailed(e.value)
      ensures !done ==> Abs() == After(AfterAll(s, calls), e.value)
      ensures done ==> Answered(reply, out, lent, given, delivered) && !reply.GotMessage?
      ensures done && e.None? ==> Did(Step(AfterAll(s, calls), Pending, [], []), out)
      ensures done && e.Some? ==> Did(ReadFails(AfterAll(s, calls), e.value, []), out)
    {
      AfterCallsKeepsBytes(s, calls, []);
      AfterCallsKeepsBytes(s, calls, s.buf);
      assert s.(buf := s.buf) == s;
      done := e.None? || ReadFailed(e.value);
      if done {
        reply, out := JudgeEnd(AfterAll(s, calls), e, chunk);
      } else {
        reply, out := StillWaiting, Pending;
        Accept(chunk);
      }
    }

    method JudgeEnd(ghost t: Conn, e: Option<Event>, chunk: BlockRef) returns (reply: Reply, ghost out: Outcome)
      requires Between(chunk) && chunk.blk == null && Abs() == AfterRead(t, e) && (e.Some? ==> ReadFailed(e.value))
      modifies this`ended, this`state
      ensures Valid() && Answered(reply, out, lent, given, delivered) && !reply.GotMessage?
      ensures Did(if e.None? then Step(t, Pending, [], []) else ReadFails(t, e.value, []), out)
    {
      NoChunk(chunk);
      reply, out := EndRead(t, e);
    }

    method Accept(chunk: BlockRef)
      requires Between(chunk)
      modifies pool`live, pool`counts, pool`blocks, chain, chain.data
      ensures Valid() && Buffered() == old(Buffered()) + Slice(pool.memory, chunk)
      ensures chain.data == old(chain.data) || fresh(chain.data)
    {
      if chunk.blk != null {
        AppendChunk(chunk);
      } else {
        NoChunk(chunk);
      }
    }

    // One round of the loop: the framer is asked, and gets more bytes if it needs them.
    method Turn(f: Framer) returns (done: bool, reply: Reply, ghost out: Outcome, ghost seen: seq<Event>)
      requires Valid() && Scripted(script) && Usable(f)
      modifies this`state, this`aborted, this`script, this`eof, this`ended, this`open
      modifies this`lent, this`given, this`delivered, current, pool, chain, chain.data
      ensures Valid() && Scripted(script) && (chain.data == old(chain.data) || fresh(chain.data))
      ensures Flat(old(script)) == Flat(seen) + Flat(script)
      ensures Possible(seen, pool.maxLive) && (done && out.Pending? ==> script == [])
      ensures done ==> Answered(reply, out, old(lent), old(given), old(delivered))
      ensures done && reply.GotMessage? ==> Apart(reply.message) && fresh(reply.message.backing.chain.Repr())
      ensures done ==> CopiedAsAsked(reply, Some(f))
      ensures done ==> Did(ReceiveLoop(f, old(Abs()), seen), out)
      ensures !done ==> Reaches(f, old(Abs()), seen, Abs()) && |Flat(script)| < |Flat(old(script))|
      ensures !done ==> lent == old(lent) && given == old(given) && delivered == old(delivered)
    {
      assert Holds(ChainPart, Invalid);
      var pr := AskFramer(f);
      if pr.NeedMore? && !eof {
        done, reply, out, seen := ReadMore(f);
      } else {
        reply, out := Conclude(f, pr);
        done, seen := true, [];
      }
    }

    // The framer emits a record, or the stream has ended: no read is needed.
    method Conclude(f: Framer, pr: ParseResult) returns (reply: Reply, ghost out: Outcome)
      requires Valid() && Usable(f) && pr == Parse(f, Buffered(), eof) && (pr.Emit? || eof)
      modifies this`ended, this`open, this`state, this`lent, this`given, this`delivered
      modifies pool`live, pool`counts, pool`blocks, chain, chain.data
      ensures Valid() && chain.data == old(chain.data)
      ensures Answered(reply, out, old(lent), old(given), old(delivered)) && !out.Pending?
      ensures reply.GotMessage? ==> fresh(reply.message.backing.chain.Repr())
      ensures CopiedAsAsked(reply, Some(f))
      ensures Did(ReceiveLoop(f, old(Abs()), []), out)
    {
      if pr.Emit? {
        reply, out := EmitOne(pr.discardBefore, pr.deliver, pr.endOfMessage, pr.gather);
      } else {
        reply, out := EndOfStream();
      }
    }

    lemma TraceGrows(f: Framer, start: Conn, trace: seq<Event>, t: Conn, seen: seq<Event>, rest: seq<Item>)
      requires Usable(f) && Reaches(f, start, trace, t)
      ensures ReceiveLoop(f, start, trace + seen) == ReceiveLoop(f, t, seen)
      ensures Flat(trace) + (Flat(seen) + rest) == Flat(trace + seen) + rest
    {
      LoopFrom(f, start, trace, t, seen);
      FlatConcat(trace, seen);
      ConcatAssociative(Flat(trace), Flat(seen), rest);
    }

    // The loop of receive_framed(). `trace` is what its reads met.
    method FramedLoop(f: Framer) returns (reply: Reply, ghost out: Outcome, ghost trace: seq<Event>)
      requires Valid() && Scripted(script) && Usable(f)
      modifies this`state, this`aborted, this`script, this`eof, this`ended, this`open
      modifies this`lent, this`given, this`delivered, current, pool, chain, chain.data
      ensures Valid() && Scripted(script) && (chain.data == old(chain.data) || fresh(chain.data))
      ensures Flat(old(script)) == Flat(trace) + Flat(script)
      ensures Possible(trace, pool.maxLive) && (out.Pending? ==> script == [])
      ensures Answered(reply, out, old(lent), old(given), old(delivered))
      ensures reply.GotMessage? ==> Apart(reply.message) && fresh(reply.message.backing.chain.Repr())
      ensures CopiedAsAsked(reply, Some(f))
      ensures Did(ReceiveLoop(f, old(Abs()), trace), out)
    {
      ghost var start := Abs();
      trace := [];
      while true
        invariant Valid() && Scripted(script) && (chain.data == old(chain.data) || fresh(chain.data))
        invariant Flat(old(script)) == Flat(trace) + Flat(script)
        invariant Reaches(f, start, trace, Abs()) && Possible(trace, pool.maxLive)
        invariant lent == old(lent) && given == old(given) && delivered == old(delivered)
        decreases |Flat(script)|
      {
        ghost var before, sofar, seen := Abs(), trace, [];
        var done;
        done, reply, out, seen := Turn(f);
        TraceGrows(f, start, sofar, before, seen, Flat(script));
        trace := sofar + seen;
        if done {
          return;
        }
        ReachesOn(f, start, sofar, before, seen, Abs());
      }
    }

    /** receive_framed(): what module Receive says, on bytes that come and go by reference. */
    method ReceiveFramed() returns (reply: Reply, ghost out: Outcome, ghost trace: seq<Event>)
      requires Valid() && Scripted(script) && framer.Some? && Usable(framer.value)
      modifies this`state, this`aborted, this`script, this`eof, this`ended, this`open
      modifies this`lent, this`given, this`delivered, current, pool, chain, chain.data
      ensures Valid() && Scripted(script) && (chain.data == old(chain.data) || fresh(chain.data))
      ensures Flat(old(script)) == Flat(trace) + Flat(script)
      ensures Possible(trace, pool.maxLive) && (out.Pending? ==> script == [])
      ensures Answered(reply, out, old(lent), old(given), old(delivered))
      ensures reply.GotMessage? ==> Apart(reply.message) && fresh(reply.message.backing.chain.Repr())
      ensures CopiedAsAsked(reply, framer)
      ensures Did(ReceiveIn(framer, old(Abs()), trace), out)
      ensures old(state) != ESTABLISHED || old(ended) ==>
                reply == GotError(RECEIVE_ERROR, INVALID_STATE) && trace == [] && Abs() == old(Abs())
    {
      if state != ESTABLISHED || ended {
        reply, out, trace := GotError(RECEIVE_ERROR, INVALID_STATE), Refused, [];
      } else {
        reply, out, trace := FramedLoop(framer.value);
      }
    }

    /** receive_unframed(): each chunk is a Message of its own. */
    method ReceiveUnframed() returns (reply: Reply, ghost out: Outcome, ghost trace: seq<Event>)
      requires Valid() && Scripted(script)
      modifies this`state, this`aborted, this`script, this`eof, this`ended, this`open
      modifies this`lent, this`given, this`delivered, current, pool
      ensures Valid() && Scripted(script)
      ensures Flat(old(script)) == Flat(trace) + Flat(script)
      ensures Possible(trace, pool.maxLive) && (out.Pending? ==> script == [])
      ensures Answered(reply, out, old(lent), old(given), old(delivered))
      ensures reply.GotMessage? ==> fresh(reply.message.backing.chain.Repr())
      ensures CopiedAsAsked(reply, None)
      ensures Did(ReceiveIn(None, old(Abs()), trace), out)
      ensures old(state) != ESTABLISHED || old(ended) ==>
                reply == GotError(RECEIVE_ERROR, INVALID_STATE) && trace == [] && Abs() == old(Abs())
    {
      if state != ESTABLISHED || ended {
        reply, out, trace := GotError(RECEIVE_ERROR, INVALID_STATE), Refused, [];
      } else {
        ghost var s, e, calls := Abs(), None, [];
        reply, out, e, calls := ReadAndPass();
        trace := Seen(calls, e);
        OnceIs(s, calls, e);
        OnlyPending(AfterAll(s, calls), e);
      }
    }

    // The one read, and what becomes of its outcome e after these calls.
    method ReadAndPass() returns (reply: Reply, ghost out: Outcome, ghost e: Option<Event>, ghost calls: seq<Event>)
      requires Valid() && Scripted(script)
      modifies this`state, this`aborted, this`script, this`eof, this`ended
      modifies this`lent, this`given, this`delivered, current, pool
      ensures Valid() && Scripted(script)
      ensures Happened(old(script), calls, e, script) && Possible(Seen(calls, e), pool.maxLive)
      ensures Answered(reply, out, old(lent), old(given), old(delivered))
      ensures reply.GotMessage? ==> fresh(reply.message.backing.chain.Repr())
      ensures CopiedAsAsked(reply, None)
      ensures Did(OnceWith(AfterAll(old(Abs()), calls), e), out)
    {
      ghost var s := Abs();
      var outcome, chunk;
      outcome, chunk, calls := ReadOne();
      e := outcome;
      reply, out := PassOn(s, outcome, chunk, calls);
    }

    lemma OnlyPending(t: Conn, e: Option<Event>)
      requires e.Some? ==> !LocalCall(e.value)
      ensures OnceWith(t, e).outcome.Pending? <==> e.None?
    {
    }

    /** receive(): the mode is the framer's, if there is one. */
    method Receive() returns (reply: Reply, ghost out: Outcome, ghost trace: seq<Event>)
      requires Valid() && Scripted(script) && UsableIn(framer)
      modifies this`state, this`aborted, this`script, this`eof, this`ended, this`open
      modifies this`lent, this`given, this`delivered, current, pool, chain, chain.data
      ensures Valid() && Scripted(script) && (chain.data == old(chain.data) || fresh(chain.data))
      ensures Flat(old(script)) == Flat(trace) + Flat(script)
      ensures Possible(trace, pool.maxLive) && (out.Pending? ==> script == [])
      ensures Answered(reply, out, old(lent), old(given), old(delivered))
      ensures reply.GotMessage? ==> Apart(reply.message) && fresh(reply.message.backing.chain.Repr())
      ensures CopiedAsAsked(reply, framer)
      ensures Did(ReceiveIn(framer, old(Abs()), trace), out)
      ensures old(state) != ESTABLISHED || old(ended) ==>
                reply == GotError(RECEIVE_ERROR, INVALID_STATE) && trace == [] && Abs() == old(Abs())
    {
      if framer.Some? {
        reply, out, trace := ReceiveFramed();
      } else {
        reply, out, trace := ReceiveUnframed();
      }
    }

    // What receive_unframed() does with the outcome e of its read; s is the Connection
    // before it.
    method PassOn(ghost s: Conn, e: Option<Event>, chunk: BlockRef, ghost calls: seq<Event>)
      returns (reply: Reply, ghost out: Outcome)
      requires Between(chunk)
      requires Slice(pool.memory, chunk) == ReadBytes(e) && (chunk.blk != null <==> ReadBytes(e) != [])
      requires AllLocal(calls) && (e.Some? ==> !LocalCall(e.value) && (e.value.Chunk? ==> e.value.bytes != []))
      requires Buffered() == s.buf && Flags() == AfterRead(AfterAll(s.(buf := []), calls), e)
      modifies this`ended, this`state, this`lent, this`given, this`delivered, pool`live, pool`counts, pool`blocks
      ensures Valid() && Answered(reply, out, old(lent), old(given), old(delivered))
      ensures reply.GotMessage? ==> fresh(reply.message.backing.chain.Repr())
      ensures CopiedAsAsked(reply, None)
      ensures Did(OnceWith(AfterAll(s, calls), e), out)
    {
      AfterCallsKeepsBytes(s, calls, []);
      AfterCallsKeepsBytes(s, calls, s.buf);
      assert s.(buf := s.buf) == s;
      if e.Some? && e.value.Chunk? {
        reply, out := PassOnChunk(AfterAll(s, calls), e.value, chunk);
      } else {
        reply, out := PassOnEnd(AfterAll(s, calls), e, chunk);
      }
    }

    method PassOnChunk(ghost t: Conn, ghost e: Event, chunk: BlockRef) returns (reply: Reply, ghost out: Outcome)
      requires Between(chunk) && e.Chunk? && e.bytes != [] && Slice(pool.memory, chunk) == e.bytes && Abs() == t
      modifies this`lent, this`given, this`delivered, pool`live, pool`counts, pool`blocks
      ensures Valid() && Answered(reply, out, old(lent), old(given), old(delivered))
      ensures reply.GotMessage? ==> fresh(reply.message.backing.chain.Repr())
      ensures CopiedAsAsked(reply, None)
      ensures Did(OnceWith(t, Some(e)), out)
    {
      reply, out := GiveChunk(chunk);
      GivesNext(t, e, out);
    }

    lemma GivesNext(t: Conn, e: Event, out: Outcome)
      requires e.Chunk? && out == Received(e.bytes, false)
      ensures OnceWith(t, Some(e)) == Step(t, out, [], [])
    {
    }

    method PassOnEnd(ghost t: Conn, e: Option<Event>, chunk: BlockRef) returns (reply: Reply, ghost out: Outcome)
      requires Between(chunk) && chunk.blk == null && Abs() == AfterRead(t, e)
      requires e.Some? ==> !LocalCall(e.value) && !e.value.Chunk?
      modifies this`ended, this`state
      ensures Valid() && Answered(reply, out, lent, given, delivered)
      ensures reply.GotMessage? ==> fresh(reply.message.backing.chain.Repr())
      ensures CopiedAsAsked(reply, None)
      ensures Did(OnceWith(t, e), out)
    {
      if e.Some? && e.value.Eof? {
        NoChunk(chunk);
        reply, out := EndCleanly();
      } else {
        reply, out := JudgeEnd(t, e, chunk);
      }
    }

    // The chunk becomes a Message.
    method GiveChunk(chunk: BlockRef) returns (reply: Reply, ghost out: Outcome)
      requires Between(chunk) && Slice(pool.memory, chunk) != []
      modifies this`lent, this`given, this`delivered, pool`live, pool`counts, pool`blocks
      ensures Valid() && Answered(reply, out, old(lent), old(given), old(delivered))
      ensures reply.GotMessage? && fresh(reply.message.backing.chain.Repr())
      ensures out == Received(Slice(pool.memory, chunk), false) && CopiedAsAsked(reply, None)
    {
      out := Received(Slice(pool.memory, chunk), false);
      HandOutChunk(chunk);
      var slice := WrapChunk(chunk);
      var message := MakeMessage(slice, false, false);
      reply := GotMessage(message);
    }

    ghost method HandOutChunk(chunk: BlockRef)
      requires Between(chunk) && Slice(pool.memory, chunk) != []
      modifies this`lent, this`given, this`delivered
      ensures Valid() && Fits(chunk) && chunk.begin < chunk.end && chunk.Owned() <= lent
      ensures Gave([chunk], Slice(pool.memory, chunk), old(lent), old(given), old(delivered))
    {
      Unfold(chunk);
      ViewSnoc(pool.memory, given, chunk);
      HeldSnoc([], chunk);
      assert [] + [chunk] == [chunk];
      BehindConcat(chain.refs + given, [chunk], current[0]);
      ConcatAssociative(chain.refs, given, [chunk]);
      lent, given, delivered := lent + chunk.Owned(), given + [chunk], delivered + Slice(pool.memory, chunk);
      Fold(Invalid);
    }

    method WrapChunk(chunk: BlockRef) returns (slice: BlockChain)
      requires Valid() && Fits(chunk) && chunk.begin < chunk.end && chunk.Owned() <= lent
      modifies pool`live, pool`counts, pool`blocks
      ensures Valid() && fresh(slice.Repr()) && slice.Valid() && slice.refs == [chunk]
      ensures View(pool.memory, slice.refs) == Slice(pool.memory, chunk)
    {
      Unfold(Invalid);
      ViewSnoc(pool.memory, [], chunk);
      assert [] + [chunk] == [chunk];
      slice := OneEntry(chunk, pool, pool.counts - chunk.Owned());
      Fold(Invalid);
    }

    // ---- send() ----

    /** Refused unless established; otherwise the write gets the Message's record, and its
        failure, if any, is classified by what the Connection has come to in the meantime.
        `calls` are made while the write is pending; `failure` is what it completes with. */
    method Send(message: Message, calls: seq<Event>, failure: Option<ErrorReason>)
      returns (wire: seq<Byte>, result: SendResult)
      requires Valid() && message.Valid() && UsableIn(framer) && AllLocal(calls)
      modifies this`state, this`aborted
      ensures Valid()
      ensures old(state) != ESTABLISHED ==>
                wire == [] && result == SendFailed(SEND_ERROR, INVALID_STATE) && Abs() == old(Abs())
      ensures old(state) == ESTABLISHED ==> Framed(framer, message.Payload(), wire)
      ensures old(state) == ESTABLISHED && failure == None ==> result == Sent && Abs() == Came(old(Abs()), calls)
      ensures old(state) == ESTABLISHED && failure == Some(LOCAL_ABORT) && !AbortedBy(old(Abs()), calls) ==>
                result == SendFailed(SEND_ERROR, INVALID_STATE) && Abs() == Came(old(Abs()), calls)
      ensures old(state) == ESTABLISHED && failure.Some?
              && (failure.value != LOCAL_ABORT || AbortedBy(old(Abs()), calls)) ==>
                && result == SendFailed(CONNECTION_ERROR, failure.value)
                && Abs() == Came(old(Abs()), calls).(state := CLOSED)
    {
      if state != ESTABLISHED {
        wire, result := [], SendFailed(SEND_ERROR, INVALID_STATE);
      } else {
        wire := Sending.BytesToWrite(framer, message, native);
        result := AwaitWrite(calls, failure);
      }
    }

    // The write completes, after the calls.
    method AwaitWrite(calls: seq<Event>, failure: Option<ErrorReason>) returns (result: SendResult)
      requires AllLocal(calls)
      modifies this`state, this`aborted
      ensures (Abs(), result) == SendEnds(AfterAll(old(Abs()), calls), failure)
      ensures (Abs(), result)
           == if failure == None then (Came(old(Abs()), calls), Sent)
              else if failure == Some(LOCAL_ABORT) && !AbortedBy(old(Abs()), calls) then
                (Came(old(Abs()), calls), SendFailed(SEND_ERROR, INVALID_STATE))
              else (Came(old(Abs()), calls).(state := CLOSED), SendFailed(CONNECTION_ERROR, failure.value))
    {
      WriteEnds(Abs(), calls, failure);
      AfterCallsKeepsBytes(Flags(), calls, Buffered());
      Meanwhile(calls);
      result := EndSend(failure);
    }

    // The application drops a Message: its references, and the blocks only it held, go.
    method DropMessage(message: BlockChain)
      requires Valid() && message.Valid() && Held(message.refs) <= lent
      requires message != chain && message.data != chain.data && message.data != current
      modifies this`lent, message, message.data, pool`live, pool`counts, pool`blocks
      ensures Valid() && message.Valid() && message.refs == []
      ensures lent == old(lent) - old(Held(message.refs))
    {
      TakeBack(message.refs);
      ClearMessage(message);
    }

    // These references are about to be given up.
    ghost predicate Returning(refs: seq<BlockRef>)
      reads this`lent, this`given, this`delivered, pool, chain, chain.data, current
    {
      && Shaped() && View(pool.memory, given) == delivered
      && pool.counts == lent + Held(chain.refs) + current[0].Owned() + Held(refs)
    }

    ghost method TakeBack(refs: seq<BlockRef>)
      requires Valid() && Held(refs) <= lent
      modifies this`lent
      ensures Returning(refs) && lent == old(lent) - Held(refs)
    {
      Unfold(Invalid);
      lent := lent - Held(refs);
    }

    method ClearMessage(message: BlockChain)
      requires Returning(message.refs) && message.Valid()
      requires message != chain && message.data != chain.data && message.data != current
      modifies message, message.data, pool`live, pool`counts, pool`blocks
      ensures Valid() && message.Valid() && message.refs == []
    {
      message.Clear(pool, lent + Held(chain.refs) + current[0].Owned());
      Fold(Invalid);
    }
  }
}
