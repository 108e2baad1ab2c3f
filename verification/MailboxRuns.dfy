/** Runs of a Mailbox and its receivers: any interleaving of deliveries, closes, aborts and
    looks of any number of receivers, one step on the strand at a time. */
module MailboxRuns {
  import Bytes
  import opened TapsApi
  import opened Mailboxes
  import opened UDPReceptions

  // aborted: the flag of the Connection that owns the Mailbox.
  datatype State<M> = State(box: Box<M>, aborted: bool)

  datatype Op<M> =
    | Arrive(m: M)                 // deliver()
    | Shut(cause: CloseCause)      // close()
    | AbortOp                      // abort() sets the flag
    | LookOp                       // a receive() comes and looks
    | ResumeOp                     // a woken receiver looks again

  predicate Enabled<M>(s: State<M>, op: Op<M>) {
    op.ResumeOp? ==> s.box.woken > 0
  }

  function Next<M>(s: State<M>, op: Op<M>): (t: State<M>)
    requires Bounded(s.box) && Enabled(s, op)
    ensures Bounded(t.box) && t.box.capacity == s.box.capacity
  {
    match op
    case Arrive(m) => s.(box := Deliver(s.box, m))
    case Shut(cause) => s.(box := Close(s.box, cause))
    case AbortOp => s.(aborted := true)
    case LookOp => s.(box := Look(s.box, s.aborted).0)
    case ResumeOp => s.(box := LookAgain(s.box, s.aborted).0)
  }

  predicate IsRun<M>(s: State<M>, ops: seq<Op<M>>)
    requires Bounded(s.box)
    decreases |ops|
  {
    ops == [] || (Enabled(s, ops[0]) && IsRun(Next(s, ops[0]), ops[1..]))
  }

  function Final<M>(s: State<M>, ops: seq<Op<M>>): (t: State<M>)
    requires Bounded(s.box) && IsRun(s, ops)
    ensures Bounded(t.box) && t.box.capacity == s.box.capacity
    decreases |ops|
  {
    if ops == [] then s else Final(Next(s, ops[0]), ops[1..])
  }

  // ---- A bounded first-in first-out queue ----

  // The datagrams the Mailbox took in.
  function Accepted<M>(s: State<M>, ops: seq<Op<M>>): seq<M>
    requires Bounded(s.box) && IsRun(s, ops)
    decreases |ops|
  {
    if ops == [] then []
    else (if ops[0].Arrive? && !s.box.closed then [ops[0].m] else []) + Accepted(Next(s, ops[0]), ops[1..])
  }

  // How a datagram left the queue.
  datatype Removal<M> = Taken(m: M) | Lost(m: M)

  function Leaves<M>(s: State<M>, op: Op<M>): seq<Removal<M>>
    requires Bounded(s.box) && Enabled(s, op)
  {
    match op
    case Arrive(_) => if !s.box.closed && |s.box.items| == s.box.capacity then [Lost(s.box.items[0])] else []
    case LookOp => if s.box.items != [] then [Taken(s.box.items[0])] else []
    case ResumeOp => if s.box.items != [] then [Taken(s.box.items[0])] else []
    case _ => []
  }

  function Removed<M>(s: State<M>, ops: seq<Op<M>>): seq<Removal<M>>
    requires Bounded(s.box) && IsRun(s, ops)
    decreases |ops|
  {
    if ops == [] then [] else Leaves(s, ops[0]) + Removed(Next(s, ops[0]), ops[1..])
  }

  function Items<M>(rs: seq<Removal<M>>): (ms: seq<M>)
    ensures |ms| == |rs|
  {
    if rs == [] then [] else [rs[0].m] + Items(rs[1..])
  }

  function LostCount<M>(rs: seq<Removal<M>>): nat {
    if rs == [] then 0 else (if rs[0].Lost? then 1 else 0) + LostCount(rs[1..])
  }

  // The datagrams receivers got, in the order they got them.
  function Returned<M>(s: State<M>, ops: seq<Op<M>>): seq<M>
    requires Bounded(s.box) && IsRun(s, ops)
    decreases |ops|
  {
    if ops == [] then []
    else
      var r := Results(s, ops[0]);
      (if r != [] && r[0].0.Datagram? then [r[0].0.m] else []) + Returned(Next(s, ops[0]), ops[1..])
  }

  function TakenOnly<M>(rs: seq<Removal<M>>): seq<M> {
    if rs == [] then [] else (if rs[0].Taken? then [rs[0].m] else []) + TakenOnly(rs[1..])
  }

  function Room(capacity: nat): nat {
    if capacity == 0 then 1 else capacity
  }

  lemma {:induction false} LostToNewer<M>(s: State<M>, ops: seq<Op<M>>, k: nat)
    requires Bounded(s.box) && IsRun(s, ops) && k < |Removed(s, ops)| && Removed(s, ops)[k].Lost?
    ensures k + s.box.capacity < |s.box.items| + |Accepted(s, ops)|
    decreases |ops|
  {
    var out := Leaves(s, ops[0]);
    OneStep(s, ops[0]);
    if k >= |out| {
      LostToNewer(Next(s, ops[0]), ops[1..], k - |out|);
    }
  }

  /** For every capacity and every run from an empty Mailbox: what was accepted is what
      left, in order, followed by the queue. So the queue is the newest part of it; what
      left was returned to receivers in that order or counted as dropped; and a datagram is
      dropped only after as many newer ones as the queue can hold have been accepted. */
  lemma BoundedFifo<M>(capacity: nat, ops: seq<Op<M>>)
    requires IsRun(State(Opened(capacity), false), ops)
    ensures var s := State(Opened(capacity), false);
            var gone, queue := Removed(s, ops), Final(s, ops).box.items;
            && Accepted(s, ops) == Items(gone) + queue
            && Returned(s, ops) == TakenOnly(gone)
            && Final(s, ops).box.dropped == LostCount(gone)
            && |Accepted(s, ops)| == |Returned(s, ops)| + Final(s, ops).box.dropped + |queue|
            && |queue| <= Room(capacity)
            && forall k :: 0 <= k < |gone| && gone[k].Lost? ==> k + Room(capacity) < |Accepted(s, ops)|
  {
    var s: State<M> := State(Opened(capacity), false);
    forall k | 0 <= k < |Removed(s, ops)| && Removed(s, ops)[k].Lost?
      ensures k + Room(capacity) < |Accepted(s, ops)|
    {
      LostToNewer(s, ops, k);
    }
    FifoOrder(s, ops);
    FifoCounts(s, ops);
    SplitCount(Removed(s, ops));
    assert s.box.items + Accepted(s, ops) == Accepted(s, ops);
  }

  lemma {:induction false} FifoOrder<M>(s: State<M>, ops: seq<Op<M>>)
    requires Bounded(s.box) && IsRun(s, ops)
    ensures s.box.items + Accepted(s, ops) == Items(Removed(s, ops)) + Final(s, ops).box.items
    decreases |ops|
  {
    if ops != [] {
      var t, more := Next(s, ops[0]), ops[1..];
      FifoOrder(t, more);
      var out, rest := Leaves(s, ops[0]), Removed(t, more);
      var taken := if ops[0].Arrive? && !s.box.closed then [ops[0].m] else [];
      OneStep(s, ops[0]);
      RemovedOne(out, rest);
      Spliced(s.box.items, taken, Accepted(t, more), Items(out), t.box.items, Items(rest), Final(t, more).box.items);
    }
  }

  lemma {:induction false} FifoCounts<M>(s: State<M>, ops: seq<Op<M>>)
    requires Bounded(s.box) && IsRun(s, ops)
    ensures Returned(s, ops) == TakenOnly(Removed(s, ops))
    ensures Final(s, ops).box.dropped == s.box.dropped + LostCount(Removed(s, ops))
    decreases |ops|
  {
    if ops != [] {
      var t, more := Next(s, ops[0]), ops[1..];
      FifoCounts(t, more);
      OneStep(s, ops[0]);
      RemovedOne(Leaves(s, ops[0]), Removed(t, more));
    }
  }

  lemma Spliced<M>(a: seq<M>, b: seq<M>, c: seq<M>, d: seq<M>, e: seq<M>, g: seq<M>, h: seq<M>)
    requires a + b == d + e && e + c == g + h
    ensures a + (b + c) == (d + g) + h
  {
    Bytes.ConcatAssociative(a, b, c);
    Bytes.ConcatAssociative(d, e, c);
    Bytes.ConcatAssociative(d, g, h);
  }

  lemma RemovedOne<M>(out: seq<Removal<M>>, rest: seq<Removal<M>>)
    requires |out| <= 1
    ensures Items(out + rest) == Items(out) + Items(rest)
    ensures LostCount(out + rest) == LostCount(out) + LostCount(rest)
    ensures TakenOnly(out + rest) == TakenOnly(out) + TakenOnly(rest)
  {
    if out == [] {
      assert out + rest == rest;
    } else {
      assert out == [out[0]] && out == [out[0]] + [];
      RemovedFirst(out[0], rest);
      RemovedFirst(out[0], []);
    }
  }

  lemma RemovedFirst<M>(r: Removal<M>, rest: seq<Removal<M>>)
    ensures Items([r] + rest) == [r.m] + Items(rest)
    ensures LostCount([r] + rest) == (if r.Lost? then 1 else 0) + LostCount(rest)
    ensures TakenOnly([r] + rest) == (if r.Taken? then [r.m] else []) + TakenOnly(rest)
  {
    assert ([r] + rest)[1..] == rest;
  }

  lemma OneStep<M>(s: State<M>, op: Op<M>)
    requires Bounded(s.box) && Enabled(s, op)
    ensures s.box.items + (if op.Arrive? && !s.box.closed then [op.m] else [])
         == Items(Leaves(s, op)) + Next(s, op).box.items
    ensures |Leaves(s, op)| <= 1
    ensures Next(s, op).box.dropped == s.box.dropped + LostCount(Leaves(s, op))
  {
    var out := Leaves(s, op);
    if out != [] {
      assert out[1..] == [] && Items(out) == [s.box.items[0]];
      assert s.box.items == [s.box.items[0]] + s.box.items[1..];
    }
  }

  lemma {:induction false} SplitCount<M>(rs: seq<Removal<M>>)
    ensures |Items(rs)| == |rs| == |TakenOnly(rs)| + LostCount(rs)
  {
    if rs != [] {
      SplitCount(rs[1..]);
    }
  }

  // ---- No lost wakeup ----

  /** A receiver waits only while every queued datagram has a woken receiver coming for it,
      and none waits at a closed Mailbox. */
  predicate Awake<M>(b: Box<M>) {
    && (b.waiting > 0 ==> |b.items| <= b.woken)
    && (b.closed ==> b.waiting == 0)
  }

  lemma {:induction false} AwakeStays<M>(s: State<M>, ops: seq<Op<M>>)
    requires Bounded(s.box) && IsRun(s, ops) && Awake(s.box)
    ensures Awake(Final(s, ops).box)
    decreases |ops|
  {
    if ops != [] {
      AwakeStays(Next(s, ops[0]), ops[1..]);
    }
  }

  /** In every run: once the woken receivers have looked, whoever still waits does so at an
      empty, open Mailbox; and while datagrams are queued beside waiting receivers, a woken
      one is on its way and gets the oldest of them. */
  lemma NoLostWakeup<M>(capacity: nat, ops: seq<Op<M>>)
    requires IsRun(State(Opened(capacity), false), ops)
    ensures var t := Final(State(Opened(capacity), false), ops);
            && Awake(t.box)
            && (t.box.waiting > 0 && t.box.woken == 0 ==> t.box.items == [] && !t.box.closed)
            && (t.box.waiting > 0 && t.box.items != [] ==>
                  Enabled(t, ResumeOp) && LookAgain(t.box, t.aborted).1 == Datagram(t.box.items[0]))
  {
    AwakeStays(State(Opened(capacity), false), ops);
  }

  // How many receivers have gone to wait, and how many have come back from it.
  function Parks<M>(s: State<M>, ops: seq<Op<M>>): nat
    requires Bounded(s.box) && IsRun(s, ops)
    decreases |ops|
  {
    if ops == [] then 0
    else
      var r := Results(s, ops[0]);
      (if r != [] && r[0].0.Parked? then 1 else 0) + Parks(Next(s, ops[0]), ops[1..])
  }

  function Resumes<M>(ops: seq<Op<M>>): nat {
    if ops == [] then 0 else (if ops[0].ResumeOp? then 1 else 0) + Resumes(ops[1..])
  }

  /** No receiver gets lost: each that has gone to wait still waits, is woken, or has looked
      again. */
  lemma {:induction false} NoLostReceiver<M>(s: State<M>, ops: seq<Op<M>>)
    requires Bounded(s.box) && IsRun(s, ops)
    ensures var t := Final(s, ops);
            s.box.waiting + s.box.woken + Parks(s, ops) == t.box.waiting + t.box.woken + Resumes(ops)
    decreases |ops|
  {
    if ops != [] {
      NoLostReceiver(Next(s, ops[0]), ops[1..]);
    }
  }

  // ---- Draining a closed Mailbox ----

  // The result of a look, with the abort flag at that time.
  function Results<M>(s: State<M>, op: Op<M>): seq<(Reception<M>, bool)>
    requires Bounded(s.box) && Enabled(s, op)
  {
    match op
    case LookOp => [(Look(s.box, s.aborted).1, s.aborted)]
    case ResumeOp => [(LookAgain(s.box, s.aborted).1, s.aborted)]
    case _ => []
  }

  function AllResults<M>(s: State<M>, ops: seq<Op<M>>): seq<(Reception<M>, bool)>
    requires Bounded(s.box) && IsRun(s, ops)
    decreases |ops|
  {
    if ops == [] then [] else Results(s, ops[0]) + AllResults(Next(s, ops[0]), ops[1..])
  }

  /** From a closed Mailbox, whatever else happens: the looks return the queued datagrams in
      order, and from then on the error for the cause the Mailbox was closed with. Nobody
      waits any more. */
  lemma {:induction false} DrainsThenFails<M>(s: State<M>, ops: seq<Op<M>>, k: nat)
    requires Bounded(s.box) && IsRun(s, ops) && s.box.closed && k < |AllResults(s, ops)|
    ensures var (r, aborted) := AllResults(s, ops)[k];
            && (k < |s.box.items| ==> r == Datagram(s.box.items[k]))
            && (k >= |s.box.items| && s.box.cause == Idle ==> r == Ended(CONNECTION_ERROR, IDLE_TIMEOUT))
            && (k >= |s.box.items| && s.box.cause == Displaced ==> r == Ended(CONNECTION_ERROR, RESOURCE_EXHAUSTED))
            && (k >= |s.box.items| && s.box.cause == Owner && aborted ==> r == Ended(CONNECTION_ERROR, LOCAL_ABORT))
            && (k >= |s.box.items| && s.box.cause == Owner && !aborted ==> r == Ended(RECEIVE_ERROR, INVALID_STATE))
    decreases |ops|
  {
    var here := Results(s, ops[0]);
    OneResult(s, ops[0]);
    if k >= |here| {
      DrainsThenFails(Next(s, ops[0]), ops[1..], k - |here|);
    }
  }

  // One step at a closed Mailbox.
  lemma OneResult<M>(s: State<M>, op: Op<M>)
    requires Bounded(s.box) && Enabled(s, op) && s.box.closed
    ensures var here, t := Results(s, op), Next(s, op);
            && t.box.closed && t.box.cause == s.box.cause && |here| <= 1
            && t.box.items == s.box.items[if |here| <= |s.box.items| then |here| else |s.box.items|..]
            && (here != [] ==>
                  here[0].0 == if s.box.items != [] then Datagram(s.box.items[0]) else CauseError(s.box.cause, here[0].1))
  {
  }

  // The cause of the first close() of a run.
  function FirstCause<M>(ops: seq<Op<M>>): CloseCause
    requires exists i :: 0 <= i < |ops| && ops[i].Shut?
  {
    if ops[0].Shut? then ops[0].cause
    else
      assert exists i :: 0 <= i < |ops[1..]| && ops[1..][i].Shut? by {
        var i :| 0 <= i < |ops| && ops[i].Shut?;
        assert ops[1..][i - 1] == ops[i];
      }
      FirstCause(ops[1..])
  }

  /** A Mailbox is closed exactly when it was told to, and keeps the first cause. */
  lemma {:induction false} FirstCauseCounts<M>(s: State<M>, ops: seq<Op<M>>)
    requires Bounded(s.box) && IsRun(s, ops) && !s.box.closed
    ensures Final(s, ops).box.closed <==> exists i :: 0 <= i < |ops| && ops[i].Shut?
    ensures Final(s, ops).box.closed ==> Final(s, ops).box.cause == FirstCause(ops)
    decreases |ops|
  {
    if ops != [] {
      var t, more := Next(s, ops[0]), ops[1..];
      if ops[0].Shut? {
        ClosedStays(t, more);
        assert ops[0].Shut?;
      } else {
        FirstCauseCounts(t, more);
        assert forall i :: 0 < i < |ops| ==> ops[i] == more[i - 1];
        assert forall i :: 0 <= i < |more| ==> more[i] == ops[i + 1];
      }
    }
  }

  lemma {:induction false} ClosedStays<M>(s: State<M>, ops: seq<Op<M>>)
    requires Bounded(s.box) && IsRun(s, ops) && s.box.closed
    ensures Final(s, ops).box.closed && Final(s, ops).box.cause == s.box.cause
    decreases |ops|
  {
    if ops != [] {
      ClosedStays(Next(s, ops[0]), ops[1..]);
    }
  }
}
