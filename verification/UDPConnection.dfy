/** A Connection of a UDP Listener (src/UDPConnection.cpp): receiving from the Mailbox it shares
    with the demultiplexer, and giving its source up. */
module UDPConnections {
  import opened TapsApi
  import opened Mailboxes
  import opened Demux
  import opened MailboxTables
  import opened UDPReceptions
  import UDPDemuxes

  class PassiveUDPConnection<M(0)> {
    const demux: UDPDemuxes.UDPDemux<M>
    const id: nat                  // which Mailbox it is
    const mailbox: Mailbox<M>
    const source: Endpoint
    var state: ConnectionState
    var aborted: bool
    var released: bool

    /** Its Mailbox is the one the demultiplexer delivers to. */
    ghost predicate Valid()
      reads demux.mailboxes, demux.mailboxes.Repr
    {
      demux.mailboxes.Valid() && id in demux.mailboxes.at && demux.mailboxes.at[id] == mailbox
    }

    // The Connection as the demultiplexer knows it.
    ghost function Abs(): Conn
      reads this`released
    {
      Conn(source, released)
    }

    constructor (demux: UDPDemuxes.UDPDemux<M>, id: nat, source: Endpoint)
      requires demux.mailboxes.Valid() && id in demux.mailboxes.at
      ensures Valid() && this.id == id && this.demux == demux
      ensures state == ESTABLISHING && !aborted && Abs() == Conn(source, false)
    {
      this.demux, this.id, this.source, mailbox := demux, id, source, demux.mailboxes.at[id];
      state, aborted, released := ESTABLISHING, false, false;
    }

    // receive() from one suspension to the next: what module UDPReceptions says, on the
    // Mailbox in the demultiplexer's table.
    method ReceiveStep(resumed: bool) returns (r: Reception<M>)
      requires Valid() && (resumed ==> BoxOf(demux.mailboxes.boxes, id).woken > 0)
      modifies this`state, demux.mailboxes`boxes, demux.mailboxes.Repr
      ensures Valid() && demux.mailboxes.at == old(demux.mailboxes.at)
      ensures demux.mailboxes.Repr == old(demux.mailboxes.Repr)
      ensures var before := old(BoxOf(demux.mailboxes.boxes, id));
              var (after, result) := if resumed then LookAgain(before, aborted) else Look(before, aborted);
              r == result && demux.mailboxes.boxes == old(demux.mailboxes.boxes)[id := after]
      ensures state == if r.Ended? then CLOSED else old(state)
      ensures var before := old(BoxOf(demux.mailboxes.boxes, id));
              && (before.items != [] ==> r == Datagram(before.items[0]))
              && (before.items == [] && !before.closed ==> r == Parked)
              && (before.items == [] && before.closed ==>
                    r == match before.cause
                         case Idle => Ended(CONNECTION_ERROR, IDLE_TIMEOUT)
                         case Displaced => Ended(CONNECTION_ERROR, RESOURCE_EXHAUSTED)
                         case Owner => if aborted then Ended(CONNECTION_ERROR, LOCAL_ABORT)
                                       else Ended(RECEIVE_ERROR, INVALID_STATE))
    {
      demux.mailboxes.Unfold();
      ghost var box := demux.mailboxes.boxes[id];
      assert Stands(mailbox, box);
      r := UseMailbox(resumed, box);
      demux.mailboxes.Note(id, mailbox.Abs());
    }

    method UseMailbox(resumed: bool, ghost box: Box<M>) returns (r: Reception<M>)
      requires demux.mailboxes.Facts() && id in demux.mailboxes.at && demux.mailboxes.at[id] == mailbox
      requires Stands(mailbox, box) && (resumed ==> box.woken > 0)
      modifies this`state, mailbox, mailbox.ring
      ensures demux.mailboxes.ValidBut(id)
      ensures mailbox.Valid() && (mailbox.Abs(), r) == if resumed then LookAgain(box, aborted) else Look(box, aborted)
      ensures state == if r.Ended? then CLOSED else old(state)
    {
      r := LookInto(resumed);
    }

    method LookInto(resumed: bool) returns (r: Reception<M>)
      requires mailbox.Valid() && (resumed ==> mailbox.woken > 0)
      modifies this`state, mailbox, mailbox.ring
      ensures mailbox.Valid() && mailbox.ring == old(mailbox.ring)
      ensures (mailbox.Abs(), r) == if resumed then LookAgain(old(mailbox.Abs()), aborted)
                                    else Look(old(mailbox.Abs()), aborted)
      ensures state == if r.Ended? then CLOSED else old(state)
    {
      if resumed {
        mailbox.EndWait();
      }
      var datagram := mailbox.TryPop();
      if datagram.Some? {
        r := Datagram(datagram.value);
      } else if mailbox.closed {
        state := CLOSED;
        r := CauseError(mailbox.cause, aborted);
      } else {
        mailbox.StartWait();
        r := Parked;
      }
    }

    // release(): close(), abort() and the destructor end here, and the first to do so posts.
    method Release()
      modifies this`released, demux`posted
      ensures (Abs(), demux.posted) == Releasing(old(Abs()), id, old(demux.posted))
    {
      if released {
        return;
      }
      released := true;
      demux.PostRelease(source, id);
    }

    method Close()
      modifies this`state, this`released, demux`posted
      ensures state == CLOSED && (Abs(), demux.posted) == Releasing(old(Abs()), id, old(demux.posted))
    {
      state := CLOSED;
      Release();
    }

    method Abort()
      modifies this`state, this`aborted, this`released, demux`posted
      ensures aborted && state == CLOSED
      ensures (Abs(), demux.posted) == Releasing(old(Abs()), id, old(demux.posted))
    {
      aborted := true;
      Close();
    }
  }
}
