/** The queue of received datagrams of one logical UDP Connection (include/taps/mailbox.h):
    a ring that grows up to a bound, drops the oldest datagram when full, and wakes waiting
    receivers through a timer that never expires. */
module Mailboxes {
  import opened Bytes

  // Why a Mailbox was closed.
  datatype CloseCause = Owner | Idle | Displaced

  // ---- The specification: a bounded queue, and how many receivers wait ----

  // waiting: receivers inside wait(). woken: receivers whose wait() has completed and that
  // have not looked again.
  datatype Box<M> = Box(items: seq<M>, capacity: nat, dropped: nat, closed: bool, cause: CloseCause,
                        waiting: nat, woken: nat)

  function Opened<M>(capacity: nat): Box<M> {
    Box([], if capacity == 0 then 1 else capacity, 0, false, Owner, 0, 0)
  }

  predicate Bounded<M>(b: Box<M>) {
    1 <= b.capacity && |b.items| <= b.capacity
  }

  // timer_.cancel_one() and timer_.cancel()
  function WakeOne<M>(b: Box<M>): Box<M> {
    if b.waiting == 0 then b else b.(waiting := b.waiting - 1, woken := b.woken + 1)
  }

  function WakeAll<M>(b: Box<M>): Box<M> {
    b.(waiting := 0, woken := b.woken + b.waiting)
  }

  function Deliver<M>(b: Box<M>, m: M): Box<M>
    requires Bounded(b)
  {
    if b.closed then b
    else if |b.items| == b.capacity then WakeOne(b.(items := b.items[1..] + [m], dropped := b.dropped + 1))
    else WakeOne(b.(items := b.items + [m]))
  }

  function Close<M>(b: Box<M>, cause: CloseCause): Box<M> {
    WakeAll(b.(closed := true, cause := if b.closed then b.cause else cause))
  }

  function Wait<M>(b: Box<M>): Box<M> {
    b.(waiting := b.waiting + 1)
  }

  // ---- The ring ----

  // The slot i places behind slot `head` of a ring of n.
  function Slot(head: nat, i: nat, n: nat): (s: nat)
    requires head < n && i <= n
    ensures s < n
  {
    if head + i < n then head + i else head + i - n
  }

  lemma SlotIsModulo(head: nat, i: nat, n: nat)
    requires head < n && i <= n
    ensures (head + i) % n == Slot(head, i, n)
  {
    if head + i < n {
      Modulo(head + i, n, 0);
    } else {
      Modulo(head + i, n, 1);
    }
  }

  lemma Modulo(x: nat, n: nat, q: nat)
    requires n > 0 && n * q <= x < n * q + n
    ensures x % n == x - n * q
  {
    var d, m := x / n, x % n;
    assert x == n * d + m;
    DivisorsDiffer(n, d, q);
    DivisorsDiffer(n, q, d);
  }

  lemma {:induction false} DivisorsDiffer(n: nat, a: int, b: int)
    ensures a < b ==> n * a + n <= n * b
    decreases b - a
  {
    if a < b {
      Times(n, b - 1);
      DivisorsDiffer(n, a, b - 1);
    }
  }

  lemma Times(n: nat, b: int)
    ensures n * (b + 1) == n * b + n
  {
  }

  class Mailbox<M(0)> {
    var ring: array<Option<M>>
    var head: nat
    var count: nat
    const capacity: nat
    var dropped: nat
    var closed: bool
    var cause: CloseCause
    var waiting: nat               // timer_
    var woken: nat
    ghost var queue: seq<M>        // the datagrams, oldest first

    /** The queue is ring[head..head + count], circularly, and the other slots are empty. */
    ghost predicate Valid()
      reads this, ring
    {
      && 1 <= capacity && ring.Length <= capacity && count == |queue| <= ring.Length
      && (if ring.Length == 0 then head == 0 else head < ring.Length)
      && (forall i :: 0 <= i < ring.Length ==>
            ring[Slot(head, i, ring.Length)] == if i < count then Some(queue[i]) else None)
    }

    ghost function Abs(): Box<M>
      reads this
    {
      Box(queue, capacity, dropped, closed, cause, waiting, woken)
    }

    constructor (capacity: nat)
      ensures Valid() && Abs() == Opened(capacity) && fresh(ring)
    {
      this.capacity := if capacity == 0 then 1 else capacity;
      ring := new Option<M>[0](_ => None);
      head, count, dropped, closed, cause := 0, 0, 0, false, Owner;
      waiting, woken, queue := 0, 0, [];
    }

    /** deliver(): ignored when closed; a full queue loses its oldest datagram. */
    method DeliverDatagram(datagram: M)
      requires Valid()
      modifies this, ring
      ensures Valid() && Abs() == Deliver(old(Abs()), datagram)
      ensures ring == old(ring) || fresh(ring)
    {
      if closed {
        return;
      }
      MakeRoom();
      PushBack(datagram);
      CancelOne();
    }

    method MakeRoom()
      requires Valid()
      modifies this`ring, this`head, this`count, this`dropped, this`queue, ring
      ensures Valid() && count < ring.Length && (ring == old(ring) || fresh(ring))
      ensures queue == if |old(queue)| == capacity then old(queue)[1..] else old(queue)
      ensures dropped == old(dropped) + if |old(queue)| == capacity then 1 else 0
    {
      if count == capacity {
        var oldest := PopFront();
        dropped := dropped + 1;
      } else if count == ring.Length {
        Grow();
      }
    }

    method PushBack(datagram: M)
      requires Valid() && count < ring.Length
      modifies this`count, this`queue, ring
      ensures Valid() && queue == old(queue) + [datagram]
    {
      SlotIsModulo(head, count, ring.Length);
      ring[(head + count) % ring.Length] := Some(datagram);
      count := count + 1;
      queue := queue + [datagram];
    }

    method CancelOne()
      modifies this`waiting, this`woken
      ensures Abs() == WakeOne(old(Abs()))
    {
      if waiting > 0 {
        waiting, woken := waiting - 1, woken + 1;
      }
    }

    /** Takes the front of the queue, if it has one. */
    method TryPop() returns (m: Option<M>)
      requires Valid()
      modifies this`head, this`count, this`queue, ring
      ensures Valid()
      ensures m == if old(queue) == [] then None else Some(old(queue)[0])
      ensures queue == if old(queue) == [] then [] else old(queue)[1..]
    {
      if count == 0 {
        m := None;
      } else {
        m := PopFront();
      }
    }

    method PopFront() returns (m: Option<M>)
      requires Valid() && count > 0
      modifies this`head, this`count, this`queue, ring
      ensures Valid() && m == Some(old(queue)[0]) && queue == old(queue)[1..]
    {
      m := ring[head];
      ring[head] := None;
      ghost var before := head;
      SlotIsModulo(head, 1, ring.Length);
      head := (head + 1) % ring.Length;
      count := count - 1;
      queue := queue[1..];
      forall i | 0 <= i < ring.Length
        ensures ring[Slot(head, i, ring.Length)] == if i < count then Some(queue[i]) else None
      {
        Advance(before, i, ring.Length);
      }
    }

    // The i-th slot behind the new head was the (i + 1)-st behind the old one.
    lemma Advance(head: nat, i: nat, n: nat)
      requires head < n && i < n
      ensures Slot(Slot(head, 1, n), i, n) == if i + 1 < n then Slot(head, i + 1, n) else head
      ensures i + 1 < n ==> Slot(head, i + 1, n) != head
      ensures Slot(head, 0, n) == head
    {
    }

    // Moves the queue to the start of a ring twice as large, or as large as allowed.
    method Grow()
      requires Valid() && count == ring.Length < capacity
      modifies this`ring, this`head
      ensures Valid() && count < ring.Length && fresh(ring)
      ensures ring.Length == Min(capacity, if old(ring.Length) < 2 then 4 else 2 * old(ring.Length))
    {
      var bigger := new Option<M>[Min(capacity, if ring.Length * 2 < 4 then 4 else ring.Length * 2)](_ => None);
      for i := 0 to count
        modifies bigger
        invariant forall j :: 0 <= j < bigger.Length ==> bigger[j] == if j < i then Some(queue[j]) else None
      {
        SlotIsModulo(head, i, ring.Length);
        bigger[i] := ring[(head + i) % ring.Length];
      }
      ring, head := bigger, 0;
    }

    /** The first cause stays; every waiting receiver is woken. */
    method CloseBox(cause: CloseCause)
      requires Valid()
      modifies this`closed, this`cause, this`waiting, this`woken
      ensures Valid() && Abs() == Close(old(Abs()), cause)
    {
      if !closed {
        this.cause := cause;
      }
      closed := true;
      waiting, woken := 0, woken + waiting;
    }

    // wait(), up to the point where it is pending.
    method StartWait()
      requires Valid()
      modifies this`waiting
      ensures Valid() && Abs() == Wait(old(Abs()))
    {
      waiting := waiting + 1;
    }

    // wait() completes in the receiver.
    method EndWait()
      requires Valid() && woken > 0
      modifies this`woken
      ensures Valid() && Abs() == old(Abs()).(woken := old(woken) - 1)
    {
      woken := woken - 1;
    }
  }
}
