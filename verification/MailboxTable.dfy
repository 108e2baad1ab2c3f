/** All Mailboxes of a UDP Listener, by their identities: the objects that the entries of the
    list and the Connections share (src/udp_demux.h, src/UDPConnection.cpp). */
module MailboxTables {
  import opened Mailboxes
  import opened Demux

  // The Mailbox holds this queue.
  ghost predicate Stands<M(0)>(mailbox: Mailbox<M>, box: Box<M>)
    reads mailbox, mailbox.ring
  {
    mailbox.Valid() && mailbox.Abs() == box
  }

  // The parts of the invariant of a MailboxTable.
  datatype TablePart = MailboxPart | QueuePart

  class MailboxTable<M(0)> {
    var at: map<nat, Mailbox<M>>
    ghost var boxes: map<nat, Box<M>>    // the queue each of them stands for
    ghost var Repr: set<object>

    /** Every Mailbox is what `boxes` says, and no two have anything in common. */
    ghost predicate Valid()
      reads this, Repr
    {
      forall part: TablePart :: Holds(part)
    }

    ghost predicate Holds(part: TablePart)
      reads this, Repr
    {
      match part
      case MailboxPart => Apart()
      case QueuePart =>
        && at.Keys == boxes.Keys
        && forall id :: id in at ==> at[id] in Repr && at[id].ring in Repr && Stands(at[id], boxes[id])
    }

    // Both parts.
    ghost predicate Facts()
      reads this, Repr
    {
      Apart() && at.Keys == boxes.Keys && forall id :: id in at ==> Stands(at[id], boxes[id])
    }

    lemma Unfold()
      requires Valid()
      ensures Facts()
    {
      assert Holds(MailboxPart) && Holds(QueuePart);
    }

    lemma Fold()
      requires Facts()
      ensures Valid()
    {
    }

    // The same but for the one Mailbox `id`, which somebody is using.
    ghost predicate ValidBut(id: nat)
      reads this, Repr
    {
      && Apart() && at.Keys == boxes.Keys && id in at && at[id].Valid()
      && forall i :: i in at && i != id ==> Stands(at[i], boxes[i])
    }

    ghost predicate Apart()
      reads this`at, this`Repr, Repr
    {
      && this !in Repr
      && (forall id :: id in at ==> at[id] in Repr && at[id].ring in Repr)
      && (forall i, j :: i in at && j in at && i != j ==> at[i] != at[j] && at[i].ring != at[j].ring)
    }

    constructor ()
      ensures Valid() && boxes == map[] && at == map[] && Repr == {}
    {
      at, boxes, Repr := map[], map[], {};
      new;
      Fold();
    }

    // A new Mailbox under a new identity.
    method Open(id: nat, capacity: nat)
      requires Valid() && id !in at
      modifies this
      ensures Valid() && boxes == old(boxes)[id := Opened(capacity)]
      ensures at.Keys == old(at).Keys + {id} && at == old(at)[id := at[id]]
      ensures old(Repr) <= Repr && forall o :: o in Repr ==> o in old(Repr) || fresh(o)
    {
      var mailbox := new Mailbox<M>(capacity);
      Enter(id, mailbox);
    }

    method Enter(id: nat, mailbox: Mailbox<M>)
      requires Valid() && id !in at && mailbox.Valid() && mailbox !in Repr && mailbox.ring !in Repr
      modifies this
      ensures Valid() && boxes == old(boxes)[id := mailbox.Abs()] && at == old(at)[id := mailbox]
      ensures Repr == old(Repr) + {mailbox, mailbox.ring}
    {
      Unfold();
      at := at[id := mailbox];
      boxes := boxes[id := mailbox.Abs()];
      Repr := Repr + {mailbox, mailbox.ring};
      Fold();
    }

    // The Mailbox has been used, and holds this queue now.
    ghost method Note(id: nat, box: Box<M>)
      requires ValidBut(id) && Stands(at[id], box)
      modifies this`boxes
      ensures Valid() && boxes == old(boxes)[id := box]
    {
      boxes := boxes[id := box];
      Fold();
    }

    method DeliverTo(id: nat, m: M)
      requires Valid() && id in at
      modifies this`boxes, this`Repr, Repr
      ensures Valid() && at == old(at) && boxes == Delivering(old(boxes), id, m)
      ensures old(Repr) <= Repr && forall o :: o in Repr ==> o in old(Repr) || fresh(o)
    {
      Unfold();
      ghost var box := boxes[id];
      assert Stands(at[id], box);
      UseToDeliver(id, m, box);
      Note(id, Deliver(box, m));
    }

    method UseToDeliver(id: nat, m: M, ghost box: Box<M>)
      requires Facts() && id in at && Stands(at[id], box) && Bounded(box)
      modifies this`Repr, at[id], at[id].ring
      ensures ValidBut(id) && Stands(at[id], Deliver(box, m))
      ensures old(Repr) <= Repr && forall o :: o in Repr ==> o in old(Repr) || fresh(o)
    {
      at[id].DeliverDatagram(m);
      Repr := Repr + {at[id].ring};
    }

    method CloseAt(id: nat, cause: CloseCause)
      requires Valid() && id in at
      modifies this`boxes, Repr
      ensures Valid() && at == old(at) && Repr == old(Repr) && boxes == Closing(old(boxes), id, cause)
    {
      Unfold();
      ghost var box := boxes[id];
      assert Stands(at[id], box);
      UseToClose(id, cause, box);
      Note(id, Close(box, cause));
    }

    method UseToClose(id: nat, cause: CloseCause, ghost box: Box<M>)
      requires Facts() && id in at && Stands(at[id], box)
      modifies at[id]
      ensures ValidBut(id) && Stands(at[id], Close(box, cause))
    {
      at[id].CloseBox(cause);
    }
  }
}
