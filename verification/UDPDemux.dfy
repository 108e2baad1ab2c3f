/** The demultiplexer with its list of entries, its hash index and its Mailboxes
    (src/UDPListener.cpp): list and index always agree, and each step does to them what module
    Demux says. */
module UDPDemuxes {
  import opened TapsApi
  import opened Mailboxes
  import opened Demux
  import opened MailboxTables

  // What becomes of an accept() on the strand.
  datatype Acceptance = Accepted(id: nat) | StillWaiting | Refused(event: ErrorEvent, reason: ErrorReason)

  // An element of lru_.
  class Node {
    const source: Endpoint
    const mailbox: nat
    var last: int

    constructor (source: Endpoint, mailbox: nat, last: int)
      ensures this.source == source && this.mailbox == mailbox && this.last == last
    {
      this.source, this.mailbox, this.last := source, mailbox, last;
    }
  }

  /** The index maps exactly the sources of the list to their elements, and no two elements
      have the same source. */
  ghost predicate Agree(lru: seq<Node>, index: map<Endpoint, Node>) {
    if lru == [] then index == map[]
    else
      && lru[0].source in index && index[lru[0].source] == lru[0]
      && Agree(lru[1..], index - {lru[0].source})
  }

  function Dropped(lru: seq<Node>, i: nat): seq<Node>
    requires i < |lru|
  {
    lru[..i] + lru[i + 1..]
  }

  lemma {:induction false} AgreeAt(lru: seq<Node>, index: map<Endpoint, Node>, i: nat)
    requires Agree(lru, index) && i < |lru|
    ensures lru[i].source in index && index[lru[i].source] == lru[i]
    ensures i > 0 ==> lru[0].source != lru[i].source
  {
    if i > 0 {
      AgreeAt(lru[1..], index - {lru[0].source}, i - 1);
    }
  }

  lemma {:induction false} SourcesDiffer(lru: seq<Node>, index: map<Endpoint, Node>, i: nat, j: nat)
    requires Agree(lru, index) && i < j < |lru|
    ensures lru[i].source != lru[j].source
  {
    if i == 0 {
      AgreeAt(lru, index, j);
    } else {
      SourcesDiffer(lru[1..], index - {lru[0].source}, i - 1, j - 1);
    }
  }

  lemma {:induction false} Indexed(lru: seq<Node>, index: map<Endpoint, Node>, source: Endpoint) returns (i: nat)
    requires Agree(lru, index) && source in index
    ensures i < |lru| && lru[i] == index[source] && lru[i].source == source
  {
    if lru[0].source == source {
      i := 0;
    } else {
      i := Indexed(lru[1..], index - {lru[0].source}, source);
      i := i + 1;
    }
  }

  lemma {:induction false} AgreeWithout(lru: seq<Node>, index: map<Endpoint, Node>, i: nat)
    requires Agree(lru, index) && i < |lru|
    ensures Agree(Dropped(lru, i), index - {lru[i].source})
  {
    AgreeAt(lru, index, i);
    if i == 0 {
      assert Dropped(lru, i) == lru[1..];
    } else {
      AgreeWithout(lru[1..], index - {lru[0].source}, i - 1);
      assert Dropped(lru, i)[1..] == Dropped(lru[1..], i - 1);
      assert index - {lru[0].source} - {lru[i].source} == index - {lru[i].source} - {lru[0].source};
    }
  }

  lemma AgreeWith(lru: seq<Node>, index: map<Endpoint, Node>, node: Node)
    requires Agree(lru, index) && node.source !in index
    ensures Agree([node] + lru, index[node.source := node])
  {
    assert ([node] + lru)[1..] == lru;
    assert index[node.source := node] - {node.source} == index;
  }

  lemma AgreeMoved(lru: seq<Node>, index: map<Endpoint, Node>, i: nat)
    requires Agree(lru, index) && i < |lru|
    ensures Agree([lru[i]] + Dropped(lru, i), index)
  {
    var node := lru[i];
    AgreeAt(lru, index, i);
    AgreeWithout(lru, index, i);
    AgreeWith(Dropped(lru, i), index - {node.source}, node);
    assert index == (index - {node.source})[node.source := node];
  }

  lemma {:induction false} AgreeSize(lru: seq<Node>, index: map<Endpoint, Node>)
    requires Agree(lru, index)
    ensures |index| == |lru|
  {
    if lru != [] {
      AgreeSize(lru[1..], index - {lru[0].source});
      assert index.Keys == (index - {lru[0].source}).Keys + {lru[0].source};
    }
  }

  // ---- The list and what it holds ----

  // The entry is what the element says.
  ghost predicate Says(node: Node, e: Entry)
    reads node
  {
    e == Entry(node.source, node.mailbox, node.last)
  }

  ghost predicate Mirrors(lru: seq<Node>, table: seq<Entry>)
    reads lru
  {
    |table| == |lru| && forall i :: 0 <= i < |lru| ==> Says(lru[i], table[i])
  }

  lemma DroppedAt(lru: seq<Node>, table: seq<Entry>, i: nat)
    requires |lru| == |table| && i < |lru|
    ensures |Dropped(lru, i)| == |Without(table, i)| == |lru| - 1
    ensures forall k :: 0 <= k < |lru| - 1 ==>
              && Dropped(lru, i)[k] == lru[if k < i then k else k + 1]
              && Without(table, i)[k] == table[if k < i then k else k + 1]
  {
  }

  lemma MirrorsWithout(lru: seq<Node>, table: seq<Entry>, i: nat)
    requires Mirrors(lru, table) && i < |lru|
    ensures Mirrors(Dropped(lru, i), Without(table, i))
  {
    DroppedAt(lru, table, i);
  }

  lemma MirrorsPushed(lru: seq<Node>, table: seq<Entry>, node: Node, e: Entry)
    requires Mirrors(lru, table) && Says(node, e)
    ensures Mirrors([node] + lru, [e] + table)
  {
  }

  // All but the i-th agree, and that comes to the front with another entry.
  lemma MirrorsMoved(lru: seq<Node>, table: seq<Entry>, i: nat, e: Entry)
    requires |lru| == |table| && i < |lru| && Says(lru[i], e)
    requires forall k :: 0 <= k < |lru| && k != i ==> Says(lru[k], table[k])
    ensures Mirrors([lru[i]] + Dropped(lru, i), [e] + Without(table, i))
  {
    DroppedAt(lru, table, i);
    MirrorsPushed(Dropped(lru, i), Without(table, i), lru[i], e);
  }

  lemma OneElement(lru: seq<Node>, index: map<Endpoint, Node>, i: nat)
    requires Agree(lru, index) && i < |lru|
    ensures forall k :: 0 <= k < |lru| && k != i ==> lru[k] != lru[i]
  {
    forall k | 0 <= k < |lru| && k != i
      ensures lru[k] != lru[i]
    {
      SourcesDiffer(lru, index, if i < k then i else k, if i < k then k else i);
    }
  }

  class UDPDemux<M(0)> {
    const limit: nat                    // max_connections()
    const mailboxes: MailboxTable<M>
    var lru: seq<Node>                  // most recently active first
    var index: map<Endpoint, Node>
    var accepting: bool
    var queue: seq<nat>                 // accept_channel_
    var waiters: nat
    var open: bool
    var sweep: Sweeper
    var posted: seq<Task>
    ghost var table: seq<Entry>         // what the list holds

    ghost predicate Valid()
      reads this`lru, this`index, this`table, lru, mailboxes, mailboxes.Repr
    {
      && Listed() && mailboxes.Valid() && Known()
      && this !in mailboxes.Repr && forall node :: node in lru ==> node !in mailboxes.Repr
    }

    // The list, the index and what they hold agree.
    ghost predicate Listed()
      reads this`lru, this`index, this`table, lru
    {
      Agree(lru, index) && Mirrors(lru, table)
    }

    // The Mailboxes of all elements are there.
    ghost predicate Known()
      reads this`table, mailboxes`at
    {
      forall i :: 0 <= i < |table| ==> table[i].mailbox in mailboxes.at
    }

    ghost function Abs(): Demux<M>
      reads this, mailboxes`boxes
    {
      Demux(table, mailboxes.boxes, accepting, queue, waiters, open, sweep, posted)
    }

    // After start().
    constructor (limit: nat)
      ensures Valid() && Abs() == Started() && this.limit == limit
      ensures fresh(mailboxes)
    {
      this.limit := limit;
      mailboxes := new MailboxTable<M>();
      lru, index, table := [], map[], [];
      accepting, queue, waiters, open, sweep, posted := true, [], 0, true, Waiting, [];
    }

    // ---- Looking up ----

    // index_.find(source)
    method Lookup(source: Endpoint) returns (node: Node?, ghost i: nat)
      requires Listed()
      ensures i == Find(table, source)
      ensures node == null <==> i == |lru|
      ensures node == null <==> source !in index
      ensures node != null ==> i < |lru| && node == lru[i]
    {
      i := Find(table, source);
      assert i < |lru| ==> Says(lru[i], table[i]);
      if source in index {
        node := index[source];
        ghost var k := Indexed(lru, index, source);
        assert Says(lru[k], table[k]);
        if i < k {
          SourcesDiffer(lru, index, i, k);
        }
      } else {
        node := null;
        if i < |lru| {
          AgreeAt(lru, index, i);
        }
      }
    }

    // The list position the index keeps for a node.
    method Element(node: Node, ghost i: nat) returns (k: nat)
      requires Listed() && i < |lru| && node == lru[i]
      ensures k == i
    {
      k :| 0 <= k < |lru| && lru[k] == node;
      if k != i {
        SourcesDiffer(lru, index, if i < k then i else k, if i < k then k else i);
      }
    }

    // ---- The list alone ----

    method Erase(i: nat)
      requires Listed() && i < |lru|
      modifies this`lru, this`index, this`table
      ensures Listed() && table == Without(old(table), i) && lru == Dropped(old(lru), i)
      ensures index == old(index) - {old(lru)[i].source}
    {
      AgreeWithout(lru, index, i);
      MirrorsWithout(lru, table, i);
      index := index - {lru[i].source};
      lru := Dropped(lru, i);
      table := Without(table, i);
    }

    method Splice(i: nat, now: int)
      requires Listed() && i < |lru|
      modifies this`lru, this`table, lru[i]
      ensures Listed() && lru == [old(lru)[i]] + Dropped(old(lru), i)
      ensures table == [old(table)[i].(last := now)] + Without(old(table), i)
    {
      Stamp(i, now);
      ghost var e := table[i].(last := now);
      AgreeMoved(lru, index, i);
      MirrorsMoved(lru, table, i, e);
      table := [e] + Without(table, i);
      lru := [lru[i]] + Dropped(lru, i);
    }

    // it->last_active = now
    method Stamp(i: nat, now: int)
      requires Listed() && i < |lru|
      modifies lru[i]
      ensures Says(lru[i], table[i].(last := now))
      ensures forall k :: 0 <= k < |lru| && k != i ==> Says(lru[k], table[k])
    {
      OneElement(lru, index, i);
      assert Says(lru[i], table[i]);
      lru[i].last := now;
    }

    method Insert(source: Endpoint, id: nat, now: int) returns (node: Node)
      requires Listed() && source !in index
      modifies this`lru, this`index, this`table
      ensures Listed() && fresh(node) && lru == [node] + old(lru)
      ensures table == [Entry(source, id, now)] + old(table)
    {
      node := new Node(source, id, now);
      AgreeWith(lru, index, node);
      MirrorsPushed(lru, table, node, Entry(source, id, now));
      table := [Entry(source, id, now)] + table;
      lru := [node] + lru;
      index := index[source := node];
    }

    // ---- The list and the Mailboxes ----

    // evict(it, cause), where `it` is the element at position i
    method EvictAt(i: nat, cause: CloseCause)
      requires Valid() && i < |lru|
      modifies this`lru, this`index, this`table, mailboxes, mailboxes.Repr
      ensures Valid() && mailboxes.at == old(mailboxes.at) && mailboxes.Repr == old(mailboxes.Repr)
      ensures table == Without(old(table), i)
      ensures mailboxes.boxes == Closing(old(mailboxes.boxes), old(table)[i].mailbox, cause)
      ensures lru == Dropped(old(lru), i) && index == old(index) - {old(lru)[i].source}
    {
      assert Says(lru[i], table[i]);
      KnownWithout(table, i);
      mailboxes.CloseAt(lru[i].mailbox, cause);
      Erase(i);
    }

    lemma KnownWithout(table: seq<Entry>, i: nat)
      requires i < |table|
      ensures forall k :: 0 <= k < |table| - 1 ==> Without(table, i)[k] in table
    {
    }

    // A datagram of a known source, found at position i.
    method TouchAt(i: nat, now: int, m: M)
      requires Valid() && i < |lru|
      modifies this`lru, this`table, lru[i], mailboxes, mailboxes.Repr
      ensures Valid() && mailboxes.at == old(mailboxes.at)
      ensures table == [old(table)[i].(last := now)] + Without(old(table), i)
      ensures mailboxes.boxes == Delivering(old(mailboxes.boxes), old(table)[i].mailbox, m)
      ensures lru == [old(lru)[i]] + Dropped(old(lru), i)
    {
      assert Says(lru[i], table[i]);
      KnownWithout(table, i);
      var id := lru[i].mailbox;
      Splice(i, now);
      mailboxes.DeliverTo(id, m);
    }

    // A new source at the front, with a new Mailbox.
    method PushFront(source: Endpoint, id: nat, now: int)
      requires Valid() && source !in index && id !in mailboxes.at
      modifies this`lru, this`index, this`table, mailboxes
      ensures Valid() && table == [Entry(source, id, now)] + old(table)
      ensures mailboxes.boxes == old(mailboxes.boxes)[id := Opened(MAILBOX_CAPACITY)] && id in mailboxes.at
      ensures forall o :: o in mailboxes.Repr ==> o in old(mailboxes.Repr) || fresh(o)
      ensures forall node :: node in lru ==> node in old(lru) || fresh(node)
    {
      mailboxes.Open(id, MAILBOX_CAPACITY);
      var _ := Insert(source, id, now);
    }

    // The last element, which is the least recently active one.
    method EvictOldest(cause: CloseCause)
      requires Valid() && lru != []
      modifies this`lru, this`index, this`table, mailboxes, mailboxes.Repr
      ensures Valid() && mailboxes.at == old(mailboxes.at) && mailboxes.Repr == old(mailboxes.Repr)
      ensures old(table) != [] && Abs() == EvictLast(old(Abs()), cause)
      ensures |lru| < |old(lru)| && forall node :: node in lru ==> node in old(lru)
      ensures forall source :: source in index ==> source in old(index)
    {
      EvictAt(|lru| - 1, cause);
    }

    // A full list loses it.
    method Displace()
      requires Valid()
      modifies this`lru, this`index, this`table, mailboxes, mailboxes.Repr
      ensures Valid() && mailboxes.at == old(mailboxes.at) && mailboxes.Repr == old(mailboxes.Repr)
      ensures Abs() == MakeRoom(old(Abs()), limit)
      ensures forall node :: node in lru ==> node in old(lru)
      ensures forall source :: source in index ==> source in old(index)
    {
      AgreeSize(lru, index);
      if |index| >= limit && lru != [] {
        EvictOldest(Displaced);
      }
    }

    // And the new source comes to the front.
    method Enter(source: Endpoint, id: nat, now: int)
      requires Valid() && source !in index && id !in mailboxes.at
      modifies this`lru, this`index, this`table, mailboxes, mailboxes.Repr
      ensures Valid() && Abs() == Pushed(MakeRoom(old(Abs()), limit), source, now, id) && id in mailboxes.at
      ensures forall o :: o in mailboxes.Repr ==> o in old(mailboxes.Repr) || fresh(o)
      ensures forall node :: node in lru ==> node in old(lru) || fresh(node)
    {
      Displace();
      PushFront(source, id, now);
    }

    // try_send(): goes to an accept() that waits, or into the queue, or nowhere.
    method TrySend(id: nat) returns (taken: bool)
      modifies this`queue, this`waiters
      ensures taken == HasRoom(old(Abs())) && Abs() == if taken then Offered(old(Abs()), id) else old(Abs())
    {
      taken := true;
      if waiters > 0 {
        waiters := waiters - 1;
      } else if |queue| < ACCEPT_QUEUE {
        queue := queue + [id];
      } else {
        taken := false;
      }
    }

    method Offer(source: Endpoint, id: nat, now: int) returns (taken: bool)
      requires Valid() && source !in index && id !in mailboxes.at
      modifies this`lru, this`index, this`table, this`queue, this`waiters, mailboxes, mailboxes.Repr
      ensures Valid() && id in mailboxes.at
      ensures var d := Pushed(MakeRoom(old(Abs()), limit), source, now, id);
              taken == HasRoom(d) && Abs() == if taken then Offered(d, id) else d
      ensures forall o :: o in mailboxes.Repr ==> o in old(mailboxes.Repr) || fresh(o)
      ensures forall node :: node in lru ==> node in old(lru) || fresh(node)
    {
      Enter(source, id, now);
      taken := TrySend(id);
    }

    method AdmitSource(source: Endpoint, now: int, m: M, id: nat)
      requires Valid() && source !in index && id !in mailboxes.at
      modifies this`lru, this`index, this`table, this`posted, this`queue, this`waiters, mailboxes, mailboxes.Repr
      ensures Valid() && Abs() == Admit(old(Abs()), limit, source, now, m, id)
      ensures forall node :: node in lru ==> node in old(lru) || fresh(node)
    {
      var taken := Offer(source, id, now);
      if taken {
        mailboxes.DeliverTo(id, m);
      } else {
        PostRelease(source, id);                         // the Connection's destructor
      }
    }

    // i is where the list has the node.
    method Refresh(node: Node, ghost i: nat, now: int, m: M)
      requires Valid() && i < |lru| && node == lru[i]
      modifies this`lru, this`table, node, mailboxes, mailboxes.Repr
      ensures Valid() && i < |old(table)| && Abs() == Touch(old(Abs()), i, now, m)
      ensures lru == [old(lru)[i]] + Dropped(old(lru), i)
    {
      var k := Element(node, i);
      TouchAt(k, now, m);
    }

    // An arrived datagram; `id` names the Mailbox of a new source.
    method Arrive(source: Endpoint, now: int, m: M, id: nat)
      requires Valid() && id !in mailboxes.at
      modifies this, lru, mailboxes, mailboxes.Repr
      ensures Valid() && Abs() == OnDatagram(old(Abs()), limit, source, now, m, id)
      ensures forall node :: node in lru ==> node in old(lru) || fresh(node)
    {
      var node, i := Lookup(source);
      if node != null {
        Refresh(node, i, now, m);
      } else if accepting {
        AdmitSource(source, now, m, id);
      }
    }

    // ---- The sweep ----

    method EvictAllIdle(cutoff: int)
      requires Valid()
      modifies this`lru, this`index, this`table, mailboxes, mailboxes.Repr
      ensures Valid() && Abs() == EvictIdle(old(Abs()), cutoff)
      ensures forall node :: node in lru ==> node in old(lru)
    {
      ghost var d := Abs();
      ghost var target := EvictIdle(d, cutoff);
      while lru != [] && lru[|lru| - 1].last < cutoff
        invariant Valid() && Abs() == d && EvictIdle(d, cutoff) == target
        invariant mailboxes.Repr == old(mailboxes.Repr) && forall node :: node in lru ==> node in old(lru)
        decreases |lru|
      {
        LastSays();
        EvictOldest(Idle);
        d := EvictLast(d, Idle);
      }
      LastSays();
    }

    lemma LastSays()
      requires Listed()
      ensures lru == [] <==> table == []
      ensures lru != [] ==> lru[|lru| - 1].last == table[|table| - 1].last
    {
      assert lru != [] ==> Says(lru[|lru| - 1], table[|table| - 1]);
    }

    // One round of sweep_loop() after its timer.
    method SweepIdle(cutoff: int)
      requires Valid()
      modifies this`lru, this`index, this`table, this`open, this`sweep, mailboxes, mailboxes.Repr
      ensures Valid() && Abs() == Sweep(old(Abs()), cutoff)
      ensures forall node :: node in lru ==> node in old(lru)
    {
      EvictAllIdle(cutoff);
      ShutDown();
      sweep := Waiting;                                   // for the timer again
    }

    // shut_down_if_unused()
    method ShutDown()
      requires Valid()
      modifies this`open, this`sweep
      ensures Valid() && Abs() == ShutDownIfUnused(old(Abs()))
    {
      AgreeSize(lru, index);
      if accepting || index != map[] {
        return;
      }
      open, sweep := false, AfterCancel(sweep);
    }

    // ---- Posted work ----

    // release(), from any thread: the work is left to the strand.
    method PostRelease(source: Endpoint, mailbox: nat)
      modifies this`posted
      ensures posted == old(posted) + [ReleaseTask(source, mailbox)]
    {
      posted := posted + [ReleaseTask(source, mailbox)];
    }

    // The posted task of stop_accepting().
    method StopAccepting()
      requires Valid()
      modifies this`accepting, this`waiters, this`open, this`sweep
      ensures Valid() && Abs() == Stop(old(Abs()))
    {
      accepting, waiters := false, 0;
      ShutDown();
    }

    // The strand part of accept(): a Connection, if the channel holds one.
    method AcceptOne() returns (result: Acceptance)
      modifies this`queue, this`waiters
      ensures Abs() == AcceptNext(old(Abs()))
      ensures old(queue) != [] ==>
                result == Accepted(old(queue)[0]) && queue == old(queue)[1..] && waiters == old(waiters)
      ensures old(queue) == [] && accepting ==> result == StillWaiting && queue == [] && waiters == old(waiters) + 1
      ensures old(queue) == [] && !accepting ==>
                result == Refused(ESTABLISHMENT_ERROR, INVALID_STATE) && queue == [] && waiters == old(waiters)
    {
      if queue != [] {
        result, queue := Accepted(queue[0]), queue[1..];
      } else if accepting {
        waiters := waiters + 1;
        result := StillWaiting;
      } else {
        result := Refused(ESTABLISHMENT_ERROR, INVALID_STATE);
      }
    }

    // Evicts the element of the source if it has this Mailbox.
    method EvictOf(source: Endpoint, mailbox: nat)
      requires Valid()
      modifies this`lru, this`index, this`table, mailboxes, mailboxes.Repr
      ensures Valid()
      ensures var d := old(Abs());
              var i := Find(d.table, source);
              Abs() == if i < |d.table| && d.table[i].mailbox == mailbox then Evict(d, i, Owner) else d
      ensures forall node :: node in lru ==> node in old(lru)
    {
      var node, i := Lookup(source);
      assert node != null ==> Says(lru[i], table[i]);
      if node != null && node.mailbox == mailbox {
        var k := Element(node, i);
        EvictAt(k, Owner);
      }
    }

    // The posted task of release().
    method ReleaseSource(source: Endpoint, mailbox: nat)
      requires Valid()
      modifies this`lru, this`index, this`table, this`open, this`sweep, mailboxes, mailboxes.Repr
      ensures Valid() && Abs() == Release(old(Abs()), source, mailbox)
      ensures forall node :: node in lru ==> node in old(lru)
    {
      EvictOf(source, mailbox);
      ShutDown();
    }
  }
}
