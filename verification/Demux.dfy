/** The demultiplexer behind a UDP Listener (src/UDPListener.cpp, src/udp_demux.h): what each
    step on its strand does to the table of sources, on values. Class UDPDemux is proved to
    do exactly this with a list of entries and a hash index. */
module Demux {
  import opened Mailboxes

  datatype Endpoint = Endpoint(address: nat, port: nat)

  // A Mailbox is named by its identity: release() compares pointers.
  datatype Entry = Entry(source: Endpoint, mailbox: nat, last: int)

  // Work posted to the strand, run in order.
  datatype Task = StopTask | ReleaseTask(source: Endpoint, mailbox: nat) | AcceptTask

  // A Connection, as far as the demultiplexer is concerned. released: it has posted its
  // release.
  datatype Conn = Conn(source: Endpoint, released: bool)

  // close(), abort() and the destructor of the Connection of Mailbox `id`: only the first
  // of them posts.
  function Releasing(c: Conn, id: nat, posted: seq<Task>): (Conn, seq<Task>) {
    if c.released then (c, posted) else (c.(released := true), posted + [ReleaseTask(c.source, id)])
  }

  // sweep_loop(): has returned; waits for its timer; or is about to go on, since the timer
  // has expired and its handler is queued on the strand.
  datatype Sweeper = Over | Waiting | Due

  datatype Demux<M> = Demux(
    table: seq<Entry>,               // most recently active first
    boxes: map<nat, Box<M>>,         // every Mailbox ever made
    accepting: bool,
    queue: seq<nat>,                 // accept_channel_: new Connections, by their Mailboxes
    waiters: nat,                    // accept() calls that wait at the channel
    open: bool,                      // the socket
    sweep: Sweeper,
    posted: seq<Task>)

  const MAILBOX_CAPACITY: nat := 256
  const ACCEPT_QUEUE: nat := 100

  // After a successful start().
  function Started<M>(): Demux<M> {
    Demux([], map[], true, [], 0, true, Waiting, [])
  }

  // The position of a source, or the length of the table.
  function Find(table: seq<Entry>, source: Endpoint): (i: nat)
    ensures i <= |table| && (i < |table| ==> table[i].source == source)
    ensures forall j :: 0 <= j < i ==> table[j].source != source
  {
    if table == [] || table[0].source == source then 0 else 1 + Find(table[1..], source)
  }

  function Without(table: seq<Entry>, i: nat): seq<Entry>
    requires i < |table|
  {
    table[..i] + table[i + 1..]
  }

  // The Mailbox of an entry. (Every entry has one; see Sound.)
  function BoxOf<M>(boxes: map<nat, Box<M>>, id: nat): (b: Box<M>)
    ensures Bounded(b)
  {
    if id in boxes && Bounded(boxes[id]) then boxes[id] else Opened(MAILBOX_CAPACITY)
  }

  // close() and deliver() of one Mailbox.
  function Closing<M>(boxes: map<nat, Box<M>>, id: nat, cause: CloseCause): map<nat, Box<M>> {
    boxes[id := Close(BoxOf(boxes, id), cause)]
  }

  function Delivering<M>(boxes: map<nat, Box<M>>, id: nat, m: M): map<nat, Box<M>> {
    boxes[id := Deliver(BoxOf(boxes, id), m)]
  }

  function Evict<M>(d: Demux<M>, i: nat, cause: CloseCause): Demux<M>
    requires i < |d.table|
  {
    d.(table := Without(d.table, i), boxes := Closing(d.boxes, d.table[i].mailbox, cause))
  }

  function EvictLast<M>(d: Demux<M>, cause: CloseCause): Demux<M>
    requires d.table != []
  {
    Evict(d, |d.table| - 1, cause)
  }

  // Cancelling the timer ends a sweep_loop() that waits for it. A handler that is queued
  // already cannot be cancelled any more.
  function AfterCancel(sweep: Sweeper): Sweeper {
    if sweep.Waiting? then Over else sweep
  }

  // shut_down_if_unused()
  function ShutDownIfUnused<M>(d: Demux<M>): Demux<M> {
    if d.accepting || d.table != [] then d else d.(open := false, sweep := AfterCancel(d.sweep))
  }

  // A datagram of a known source: its entry becomes the most recent.
  function Touch<M>(d: Demux<M>, i: nat, now: int, m: M): Demux<M>
    requires i < |d.table|
  {
    d.(table := [d.table[i].(last := now)] + Without(d.table, i), boxes := Delivering(d.boxes, d.table[i].mailbox, m))
  }

  // A full table loses its least recently active source.
  function MakeRoom<M>(d: Demux<M>, limit: nat): Demux<M> {
    if |d.table| >= limit && d.table != [] then EvictLast(d, Displaced) else d
  }

  // A new entry at the front, with a new, empty Mailbox.
  function Pushed<M>(d: Demux<M>, source: Endpoint, now: int, id: nat): Demux<M> {
    d.(table := [Entry(source, id, now)] + d.table, boxes := d.boxes[id := Opened(MAILBOX_CAPACITY)])
  }

  // try_send() on the open channel succeeds, and what it does then: a Connection goes to an
  // accept() that waits, or to the back of the queue.
  predicate HasRoom<M>(d: Demux<M>) {
    d.waiters > 0 || |d.queue| < ACCEPT_QUEUE
  }

  function Offered<M>(d: Demux<M>, id: nat): Demux<M> {
    if d.waiters > 0 then d.(waiters := d.waiters - 1) else d.(queue := d.queue + [id])
  }

  // async_receive(): a closed channel still gives what it holds.
  function AcceptNext<M>(d: Demux<M>): Demux<M> {
    if d.queue != [] then d.(queue := d.queue[1..])
    else if d.accepting then d.(waiters := d.waiters + 1)
    else d
  }

  // A datagram of a new source: `id` is its Mailbox. Without room in the accept queue the
  // new Connection is destroyed at once, which posts its release, and the datagram is lost.
  function Admit<M>(d: Demux<M>, limit: nat, source: Endpoint, now: int, m: M, id: nat): Demux<M> {
    var d := Pushed(MakeRoom(d, limit), source, now, id);
    if HasRoom(d) then Offered(d, id).(boxes := Delivering(d.boxes, id, m))
    else d.(posted := d.posted + [ReleaseTask(source, id)])
  }

  // One datagram in receive_loop().
  function OnDatagram<M>(d: Demux<M>, limit: nat, source: Endpoint, now: int, m: M, id: nat): Demux<M> {
    var i := Find(d.table, source);
    if i < |d.table| then Touch(d, i, now, m)
    else if !d.accepting then d
    else Admit(d, limit, source, now, m, id)
  }

  // The loop of one sweep.
  function EvictIdle<M>(d: Demux<M>, cutoff: int): Demux<M>
    decreases |d.table|
  {
    if d.table != [] && d.table[|d.table| - 1].last < cutoff then EvictIdle(EvictLast(d, Idle), cutoff) else d
  }

  // One round of sweep_loop(), which nothing waits for meanwhile: there is no handler to
  // cancel. Then it waits for the timer again.
  function Sweep<M>(d: Demux<M>, cutoff: int): Demux<M> {
    ShutDownIfUnused(EvictIdle(d, cutoff)).(sweep := Waiting)
  }

  // The posted task of stop_accepting(): closing the channel fails the accept() calls that
  // wait at it.
  function Stop<M>(d: Demux<M>): Demux<M> {
    ShutDownIfUnused(d.(accepting := false, waiters := 0))
  }

  function Release<M>(d: Demux<M>, source: Endpoint, mailbox: nat): Demux<M> {
    var i := Find(d.table, source);
    ShutDownIfUnused(if i < |d.table| && d.table[i].mailbox == mailbox then Evict(d, i, Owner) else d)
  }

  function RunTask<M>(d: Demux<M>): Demux<M>
    requires d.posted != []
  {
    var rest := d.(posted := d.posted[1..]);
    match d.posted[0]
    case StopTask => Stop(rest)
    case AcceptTask => AcceptNext(rest)
    case ReleaseTask(source, mailbox) => Release(rest, source, mailbox)
  }
}
