/** What the peers' datagrams come to in every run of a UDP Listener: each Mailbox takes exactly
    those of its source, and what its receivers get, datagrams and errors, tells what
    happened to it (src/UDPListener.cpp, src/UDPConnection.cpp). */
module UdpDelivery {
  import opened TapsApi
  import opened Mailboxes
  import opened UDPReceptions
  import opened Demux
  import opened DemuxTable
  import opened UdpSystem
  import opened UdpRuns
  import R = MailboxRuns

  // ---- Each Mailbox on its own ----

  // A Mailbox and the abort flag of its Connection; one that is not made yet is empty.
  function BoxAt<M>(s: System<M>, id: nat): R.State<M> {
    R.State(if id in s.d.boxes then s.d.boxes[id] else Opened(MAILBOX_CAPACITY), id in s.aborted)
  }

  // The datagram is for this Mailbox: it is the open one of the source, or the one made for
  // a new source whose Connection somebody takes.
  predicate Gets<M>(s: System<M>, step: Step<M>, id: nat) {
    && step.Arrive?
    && (if id in s.conns then s.conns[id].source == step.source && !ClosedIn(s.d, id)
        else id == step.id && Admits(s.d, step.source) && HasRoom(s.d))
  }

  predicate Shuts<M>(s: System<M>, limit: nat, step: Step<M>, id: nat, cause: CloseCause) {
    id in s.conns && !ClosedIn(s.d, id) && Explains(s, limit, step, id, cause)
  }

  // What a step of the system is to one Mailbox.
  function BoxOps<M>(s: System<M>, limit: nat, step: Step<M>, id: nat): seq<R.Op<M>> {
    match step
    case Arrive(_, _, m, _) =>
      if Gets(s, step, id) then [R.Arrive(m)]
      else if Shuts(s, limit, step, id, Displaced) then [R.Shut(Displaced)]
      else []
    case SweepRound(_) => if Shuts(s, limit, step, id, Idle) then [R.Shut(Idle)] else []
    case RunPosted => if Shuts(s, limit, step, id, Owner) then [R.Shut(Owner)] else []
    case Abort(other) => if other == id then [R.AbortOp] else []
    case Receiver(other, again) => if other == id then [if again then R.ResumeOp else R.LookOp] else []
    case _ => []
  }

  // The operations lead from u to v.
  ghost predicate Leads<M>(u: R.State<M>, ops: seq<R.Op<M>>, v: R.State<M>) {
    Bounded(u.box) && R.IsRun(u, ops) && R.Final(u, ops) == v
  }

  lemma NoOp<M>(u: R.State<M>)
    requires Bounded(u.box)
    ensures Leads(u, [], u)
  {
  }

  lemma OneOp<M>(u: R.State<M>, op: R.Op<M>)
    requires Bounded(u.box) && R.Enabled(u, op)
    ensures Leads(u, [op], R.Next(u, op))
  {
    assert [op][1..] == [];
    NoOp(R.Next(u, op));
  }

  lemma BoxBounded<M>(s: System<M>, limit: nat, id: nat)
    requires Inv(s, limit)
    ensures Bounded(BoxAt(s, id).box)
  {
  }

  // ---- Datagrams ----

  /** A datagram of a listed source, whether new sources are accepted or not: it goes to the
      back of the source's Mailbox, from which the oldest one falls out if it is full, and
      wakes one receiver; the source becomes the most recent one; nothing else changes. */
  lemma ListedSourceServed<M>(s: System<M>, limit: nat, source: Endpoint, now: int, m: M, newId: nat, i: nat)
    requires Inv(s, limit) && limit > 0 && Enabled(s, Arrive(source, now, m, newId))
    requires i < |s.d.table| && s.d.table[i].source == source
    ensures var t, box := Next(s, limit, Arrive(source, now, m, newId)), s.d.boxes[s.d.table[i].mailbox];
            && t.d.table == [Entry(source, s.d.table[i].mailbox, now)] + (s.d.table[..i] + s.d.table[i + 1..])
            && t == s.(now := now, d := s.d.(table := t.d.table, boxes := t.d.boxes))
            && t.d.boxes == s.d.boxes[s.d.table[i].mailbox := t.d.boxes[s.d.table[i].mailbox]]
            && !box.closed
            && t.d.boxes[s.d.table[i].mailbox]
               == box.(items := (if |box.items| == box.capacity then box.items[1..] else box.items) + [m],
                       dropped := box.dropped + (if |box.items| == box.capacity then 1 else 0),
                       waiting := if box.waiting == 0 then 0 else box.waiting - 1,
                       woken := if box.waiting == 0 then box.woken else box.woken + 1)
  {
    var k := Find(s.d.table, source);
    assert k == i;
    assert InTable(s.d.table, s.d.table[i].mailbox);
  }

  /** A datagram of a new source, while they are accepted: an entry in front of the others,
      of which a full table loses the last, whose Mailbox is closed as displaced; and a
      Connection. A waiting accept() takes it, or else the queue, and its Mailbox holds the
      datagram; when 100 Connections are queued it is released at once, and the datagram is
      lost. */
  lemma NewSourceAdmitted<M>(s: System<M>, limit: nat, source: Endpoint, now: int, m: M, newId: nat)
    requires Inv(s, limit) && limit > 0 && Enabled(s, Arrive(source, now, m, newId)) && s.d.accepting
    requires forall i :: 0 <= i < |s.d.table| ==> s.d.table[i].source != source
    ensures var t, taken := Next(s, limit, Arrive(source, now, m, newId)), s.d.waiters > 0 || |s.d.queue| < 100;
            && t.d.table == [Entry(source, newId, now)]
                            + s.d.table[..if |s.d.table| == limit then limit - 1 else |s.d.table|]
            && t.conns == s.conns[newId := Conn(source, !taken)]
            && newId in t.d.boxes && t.d.boxes[newId] == Opened(256).(items := if taken then [m] else [])
            && t.d.waiters == (if s.d.waiters > 0 then s.d.waiters - 1 else 0)
            && t.d.queue == (if s.d.waiters == 0 && taken then s.d.queue + [newId] else s.d.queue)
            && t.d.posted == (if taken then s.d.posted else s.d.posted + [ReleaseTask(source, newId)])
            && t.d.accepting && t.d.open == s.d.open && t.d.sweep == s.d.sweep
            && t.now == now && t.listening == s.listening && t.aborted == s.aborted
            && forall id :: id in s.d.boxes ==>
                 id in t.d.boxes
                 && t.d.boxes[id] == if Victim(s.d, limit, id) then Close(s.d.boxes[id], Displaced) else s.d.boxes[id]
  {
    assert Find(s.d.table, source) == |s.d.table|;
    AdmitDoes(s.d, limit, source, now, m, newId);
    OthersAfterAdmit(s.d, limit, s.now, Arrive(source, now, m, newId));
  }

  lemma AdmitDoes<M>(d: Demux<M>, limit: nat, source: Endpoint, now: int, m: M, id: nat)
    requires |d.table| <= limit && limit > 0
    ensures var e, taken := Admit(d, limit, source, now, m, id), d.waiters > 0 || |d.queue| < 100;
            && e.table == [Entry(source, id, now)] + d.table[..if |d.table| == limit then limit - 1 else |d.table|]
            && id in e.boxes && e.boxes[id] == Opened(256).(items := if taken then [m] else [])
            && e.waiters == (if d.waiters > 0 then d.waiters - 1 else 0)
            && e.queue == (if d.waiters == 0 && taken then d.queue + [id] else d.queue)
            && e.posted == (if taken then d.posted else d.posted + [ReleaseTask(source, id)])
            && e.accepting == d.accepting && e.open == d.open && e.sweep == d.sweep
  {
    var n := if |d.table| == limit then limit - 1 else |d.table|;
    assert MakeRoom(d, limit).table == d.table[..n];
  }

  lemma OthersAfterAdmit<M>(d: Demux<M>, limit: nat, before: int, step: Step<M>)
    requires TableSound(d, limit, before) && limit > 0 && step.Arrive? && step.id !in d.boxes
    ensures var e := Admit(d, limit, step.source, step.now, step.m, step.id);
            forall id :: id in d.boxes ==>
              id in e.boxes && e.boxes[id] == if Victim(d, limit, id) then Close(d.boxes[id], Displaced) else d.boxes[id]
  {
    forall id | id in d.boxes
      ensures var e := Admit(d, limit, step.source, step.now, step.m, step.id);
              id in e.boxes && e.boxes[id] == if Victim(d, limit, id) then Close(d.boxes[id], Displaced) else d.boxes[id]
    {
      BoxAfterAdmit(d, limit, before, step, id);
    }
  }

  // What comes of a listed source's datagram, by Mailbox.
  lemma TouchBox<M>(s: System<M>, limit: nat, step: Step<M>, i: nat, id: nat)
    requires Inv(s, limit) && limit > 0 && step.Arrive? && Enabled(s, step)
    requires i < |s.d.table| && s.d.table[i].source == step.source
    ensures BoxAt(Next(s, limit, step), id)
         == if id == s.d.table[i].mailbox then BoxAt(s, id).(box := Deliver(BoxAt(s, id).box, step.m)) else BoxAt(s, id)
  {
    ListedSourceServed(s, limit, step.source, step.now, step.m, step.id, i);
  }

  lemma TouchOps<M>(s: System<M>, limit: nat, step: Step<M>, i: nat, id: nat)
    requires Inv(s, limit) && step.Arrive? && Enabled(s, step)
    requires i < |s.d.table| && s.d.table[i].source == step.source
    ensures BoxOps(s, limit, step, id) == if id == s.d.table[i].mailbox then [R.Arrive(step.m)] else []
  {
    if id == s.d.table[i].mailbox {
      assert InTable(s.d.table, id);
    } else {
      NotTheSources(s, limit, i, id);
      assert !Admits(s.d, step.source);
    }
  }

  lemma Touched<M>(s: System<M>, limit: nat, step: Step<M>, id: nat)
    requires Inv(s, limit) && limit > 0 && step.Arrive? && Enabled(s, step)
    requires Find(s.d.table, step.source) < |s.d.table|
    ensures Leads(BoxAt(s, id), BoxOps(s, limit, step, id), BoxAt(Next(s, limit, step), id))
  {
    var i := Find(s.d.table, step.source);
    BoxBounded(s, limit, id);
    TouchOps(s, limit, step, i, id);
    TouchBox(s, limit, step, i, id);
    if id == s.d.table[i].mailbox {
      OneOp(BoxAt(s, id), R.Arrive(step.m));
    } else {
      NoOp(BoxAt(s, id));
    }
  }

  // The open Mailbox of a source is the one in its entry.
  lemma NotTheSources<M>(s: System<M>, limit: nat, i: nat, id: nat)
    requires Inv(s, limit) && i < |s.d.table| && id != s.d.table[i].mailbox
    ensures id in s.conns && s.conns[id].source == s.d.table[i].source ==> ClosedIn(s.d, id)
  {
    if id in s.conns && !ClosedIn(s.d, id) {
      assert InTable(s.d.table, id);
      var k :| 0 <= k < |s.d.table| && s.d.table[k].mailbox == id;
      assert s.conns[s.d.table[k].mailbox].source == s.d.table[k].source;
    }
  }

  // A source that is not listed has no open Mailbox.
  lemma NoneOpen<M>(s: System<M>, limit: nat, source: Endpoint, id: nat)
    requires Inv(s, limit) && Find(s.d.table, source) == |s.d.table|
    ensures id in s.conns && s.conns[id].source == source ==> ClosedIn(s.d, id)
  {
    if id in s.conns && !ClosedIn(s.d, id) {
      assert InTable(s.d.table, id);
      var k :| 0 <= k < |s.d.table| && s.d.table[k].mailbox == id;
      assert s.conns[s.d.table[k].mailbox].source == s.d.table[k].source;
    }
  }

  lemma NewBox<M>(s: System<M>, limit: nat, step: Step<M>)
    requires Inv(s, limit) && limit > 0 && step.Arrive? && Enabled(s, step) && Admits(s.d, step.source)
    ensures Leads(BoxAt(s, step.id), BoxOps(s, limit, step, step.id), BoxAt(Next(s, limit, step), step.id))
  {
    var u := BoxAt(s, step.id);
    if HasRoom(s.d) {
      OneOp(u, R.Arrive(step.m));
    } else {
      NoOp(u);
    }
  }

  // The least recent source has this Mailbox, and the table is full.
  predicate Victim<M>(d: Demux<M>, limit: nat, id: nat) {
    |d.table| == limit > 0 && d.table[limit - 1].mailbox == id
  }

  lemma OldBoxOps<M>(s: System<M>, limit: nat, step: Step<M>, id: nat)
    requires Inv(s, limit) && step.Arrive? && Enabled(s, step) && Admits(s.d, step.source) && id != step.id
    ensures BoxOps(s, limit, step, id) == if Victim(s.d, limit, id) then [R.Shut(Displaced)] else []
  {
    NoneOpen(s, limit, step.source, id);
    if Victim(s.d, limit, id) {
      assert InTable(s.d.table, s.d.table[limit - 1].mailbox);
    }
  }

  // The Mailboxes that are there when a new source comes.
  lemma OldBox<M>(s: System<M>, limit: nat, step: Step<M>, id: nat)
    requires Inv(s, limit) && limit > 0 && step.Arrive? && Enabled(s, step) && Admits(s.d, step.source) && id != step.id
    ensures Leads(BoxAt(s, id), BoxOps(s, limit, step, id), BoxAt(Next(s, limit, step), id))
  {
    BoxBounded(s, limit, id);
    OldBoxOps(s, limit, step, id);
    BoxAfterAdmit(s.d, limit, s.now, step, id);
    if Victim(s.d, limit, id) {
      OneOp(BoxAt(s, id), R.Shut(Displaced));
    } else {
      NoOp(BoxAt(s, id));
    }
  }

  lemma BoxAfterAdmit<M>(d: Demux<M>, limit: nat, before: int, step: Step<M>, id: nat)
    requires TableSound(d, limit, before) && limit > 0 && step.Arrive? && id != step.id
    ensures var e := Admit(d, limit, step.source, step.now, step.m, step.id);
            && (id in e.boxes <==> id in d.boxes)
            && (id in d.boxes ==>
                  e.boxes[id] == if Victim(d, limit, id) then Close(d.boxes[id], Displaced) else d.boxes[id])
  {
  }

  lemma ArriveBox<M>(s: System<M>, limit: nat, step: Step<M>, id: nat)
    requires Inv(s, limit) && limit > 0 && step.Arrive? && Enabled(s, step)
    ensures Leads(BoxAt(s, id), BoxOps(s, limit, step, id), BoxAt(Next(s, limit, step), id))
  {
    if Find(s.d.table, step.source) < |s.d.table| {
      Touched(s, limit, step, id);
    } else if !s.d.accepting {
      BoxBounded(s, limit, id);
      NoneOpen(s, limit, step.source, id);
      NoOp(BoxAt(s, id));
    } else if id == step.id {
      NewBox(s, limit, step);
    } else {
      OldBox(s, limit, step, id);
    }
  }

  // ---- The other steps ----

  lemma SweepBox<M>(s: System<M>, limit: nat, cutoff: int, id: nat)
    requires Inv(s, limit) && s.d.sweep.Due?
    ensures Leads(BoxAt(s, id), BoxOps(s, limit, SweepRound(cutoff), id), BoxAt(Next(s, limit, SweepRound(cutoff)), id))
  {
    BoxBounded(s, limit, id);
    SweepKeepsBoxes(s.d, cutoff, limit, s.now);
    if id in s.d.boxes {
      SweepClosesIdle(s.d, cutoff, limit, s.now, id);
    }
    if IdleIn(s.d.table, id, cutoff) {
      assert InTable(s.d.table, id);
      OneOp(BoxAt(s, id), R.Shut(Idle));
    } else {
      NoOp(BoxAt(s, id));
    }
  }

  // A release whose Connection's Mailbox is open finds it.
  lemma ReleaseFinds<M>(s: System<M>, limit: nat, source: Endpoint, id: nat)
    requires Inv(s, limit) && s.d.posted != [] && s.d.posted[0] == ReleaseTask(source, id)
    ensures var i := Find(s.d.table, source);
            && id in s.conns && s.conns[id].released
            && (ClosedIn(s.d, id) ==> i == |s.d.table| || s.d.table[i].mailbox != id)
            && (!ClosedIn(s.d, id) ==> i < |s.d.table| && s.d.table[i].mailbox == id)
  {
    if !ClosedIn(s.d, id) {
      assert InTable(s.d.table, id);
      var k :| 0 <= k < |s.d.table| && s.d.table[k].mailbox == id;
      assert s.conns[s.d.table[k].mailbox].source == s.d.table[k].source;
    } else {
      var i := Find(s.d.table, source);
      assert i < |s.d.table| ==> InTable(s.d.table, s.d.table[i].mailbox);
    }
  }

  lemma ReleaseOps<M>(s: System<M>, limit: nat, source: Endpoint, mailbox: nat, id: nat)
    requires Inv(s, limit) && s.d.posted != [] && s.d.posted[0] == ReleaseTask(source, mailbox)
    ensures BoxOps(s, limit, RunPosted, id) == if id == mailbox && !ClosedIn(s.d, id) then [R.Shut(Owner)] else []
  {
    ReleaseFinds(s, limit, source, mailbox);
  }

  lemma ReleaseTo<M>(s: System<M>, limit: nat, source: Endpoint, mailbox: nat, id: nat)
    requires Inv(s, limit) && s.d.posted != [] && s.d.posted[0] == ReleaseTask(source, mailbox)
    ensures BoxAt(Next(s, limit, RunPosted), id)
         == if id == mailbox && !ClosedIn(s.d, id) then BoxAt(s, id).(box := Close(BoxAt(s, id).box, Owner))
            else BoxAt(s, id)
  {
    ReleaseFinds(s, limit, source, mailbox);
  }

  lemma ReleaseBox<M>(s: System<M>, limit: nat, source: Endpoint, mailbox: nat, id: nat)
    requires Inv(s, limit) && s.d.posted != [] && s.d.posted[0] == ReleaseTask(source, mailbox)
    ensures Leads(BoxAt(s, id), BoxOps(s, limit, RunPosted, id), BoxAt(Next(s, limit, RunPosted), id))
  {
    BoxBounded(s, limit, id);
    ReleaseOps(s, limit, source, mailbox, id);
    ReleaseTo(s, limit, source, mailbox, id);
    if id == mailbox && !ClosedIn(s.d, id) {
      OneOp(BoxAt(s, id), R.Shut(Owner));
    } else {
      NoOp(BoxAt(s, id));
    }
  }

  lemma OtherTaskBox<M>(s: System<M>, limit: nat, id: nat)
    requires Inv(s, limit) && s.d.posted != [] && !s.d.posted[0].ReleaseTask?
    ensures Leads(BoxAt(s, id), BoxOps(s, limit, RunPosted, id), BoxAt(Next(s, limit, RunPosted), id))
  {
    BoxBounded(s, limit, id);
    assert BoxOps(s, limit, RunPosted, id) == [];
    NoOp(BoxAt(s, id));
  }

  lemma TaskBox<M>(s: System<M>, limit: nat, id: nat)
    requires Inv(s, limit) && s.d.posted != []
    ensures Leads(BoxAt(s, id), BoxOps(s, limit, RunPosted, id), BoxAt(Next(s, limit, RunPosted), id))
  {
    match s.d.posted[0] {
      case ReleaseTask(source, mailbox) => ReleaseBox(s, limit, source, mailbox, id);
      case _ => OtherTaskBox(s, limit, id);
    }
  }

  lemma AbortBox<M>(s: System<M>, limit: nat, other: nat, id: nat)
    requires Inv(s, limit) && Enabled(s, Abort(other))
    ensures Leads(BoxAt(s, id), BoxOps(s, limit, Abort(other), id), BoxAt(Next(s, limit, Abort(other)), id))
  {
    BoxBounded(s, limit, id);
    if other == id {
      OneOp(BoxAt(s, id), R.AbortOp);
    } else {
      NoOp(BoxAt(s, id));
    }
  }

  lemma LookOps<M>(s: System<M>, limit: nat, other: nat, again: bool, id: nat)
    ensures BoxOps(s, limit, Receiver(other, again), id)
         == if other == id then [if again then R.ResumeOp else R.LookOp] else []
  {
  }

  lemma LookTo<M>(s: System<M>, limit: nat, other: nat, again: bool, id: nat)
    requires Inv(s, limit) && Enabled(s, Receiver(other, again))
    ensures BoxAt(Next(s, limit, Receiver(other, again)), id)
         == if other == id then BoxAt(s, id).(box := Looking(s, id, again).0) else BoxAt(s, id)
  {
  }

  lemma LookBox<M>(s: System<M>, limit: nat, other: nat, again: bool, id: nat)
    requires Inv(s, limit) && Enabled(s, Receiver(other, again))
    ensures var step := Receiver(other, again);
            Leads(BoxAt(s, id), BoxOps(s, limit, step, id), BoxAt(Next(s, limit, step), id))
  {
    BoxBounded(s, limit, id);
    LookOps(s, limit, other, again, id);
    LookTo(s, limit, other, again, id);
    if other == id {
      OneOp(BoxAt(s, id), if again then R.ResumeOp else R.LookOp);
    } else {
      NoOp(BoxAt(s, id));
    }
  }

  lemma QuietBox<M>(s: System<M>, limit: nat, step: Step<M>, id: nat)
    requires Inv(s, limit) && Enabled(s, step)
    requires step.PostRelease? || step.PostAccept? || step.PostStop? || step.TimerExpires?
    ensures Leads(BoxAt(s, id), BoxOps(s, limit, step, id), BoxAt(Next(s, limit, step), id))
  {
    BoxBounded(s, limit, id);
    NoOp(BoxAt(s, id));
  }

  /** One step of the system is at most one operation at a Mailbox. */
  lemma StepBox<M>(s: System<M>, limit: nat, step: Step<M>, id: nat)
    requires Inv(s, limit) && limit > 0 && Enabled(s, step)
    ensures Leads(BoxAt(s, id), BoxOps(s, limit, step, id), BoxAt(Next(s, limit, step), id))
  {
    match step {
      case Arrive(_, _, _, _) => ArriveBox(s, limit, step, id);
      case SweepRound(cutoff) => SweepBox(s, limit, cutoff, id);
      case RunPosted => TaskBox(s, limit, id);
      case Abort(other) => AbortBox(s, limit, other, id);
      case Receiver(other, again) => LookBox(s, limit, other, again, id);
      case _ => QuietBox(s, limit, step, id);
    }
  }

  // ---- Whole runs ----

  function AllBoxOps<M>(s: System<M>, limit: nat, steps: seq<Step<M>>, id: nat): seq<R.Op<M>>
    requires IsRun(s, limit, steps)
    decreases |steps|
  {
    if steps == [] then []
    else BoxOps(s, limit, steps[0], id) + AllBoxOps(Next(s, limit, steps[0]), limit, steps[1..], id)
  }

  lemma {:induction false} LeadsOn<M>(u: R.State<M>, a: seq<R.Op<M>>, v: R.State<M>, b: seq<R.Op<M>>, w: R.State<M>)
    requires Leads(u, a, v) && Leads(v, b, w)
    ensures Leads(u, a + b, w)
    decreases |a|
  {
    if a == [] {
      assert a + b == b;
    } else {
      assert (a + b)[1..] == a[1..] + b;
      LeadsOn(R.Next(u, a[0]), a[1..], v, b, w);
    }
  }

  /** In every run each Mailbox goes through a run of its own: it takes the datagrams of its
      source, is closed for a reason, and its receivers look at it. All that module
      MailboxRuns says of such runs holds of it. */
  lemma {:induction false} RunOfBox<M>(s: System<M>, limit: nat, steps: seq<Step<M>>, id: nat)
    requires Inv(s, limit) && limit > 0 && IsRun(s, limit, steps)
    ensures Leads(BoxAt(s, id), AllBoxOps(s, limit, steps, id), BoxAt(Final(s, limit, steps), id))
    decreases |steps|
  {
    if steps == [] {
      BoxBounded(s, limit, id);
      NoOp(BoxAt(s, id));
    } else {
      var t := Next(s, limit, steps[0]);
      StepKeepsInv(s, limit, steps[0]);
      StepBox(s, limit, steps[0], id);
      RunOfBox(t, limit, steps[1..], id);
      LeadsOn(BoxAt(s, id), BoxOps(s, limit, steps[0], id), BoxAt(t, id),
              AllBoxOps(t, limit, steps[1..], id), BoxAt(Final(s, limit, steps), id));
    }
  }

  // ---- Every datagram is accounted for ----

  // The datagrams that come for the Mailbox, and those its receivers get.
  function Came<M>(s: System<M>, step: Step<M>, id: nat): seq<M> {
    if Gets(s, step, id) then [step.m] else []
  }

  function Got<M>(s: System<M>, step: Step<M>, id: nat): seq<M>
    requires Enabled(s, step)
  {
    if step.Receiver? && step.id == id && Looking(s, id, step.again).1.Datagram? then [Looking(s, id, step.again).1.m]
    else []
  }

  function AllCame<M>(s: System<M>, limit: nat, steps: seq<Step<M>>, id: nat): seq<M>
    requires IsRun(s, limit, steps)
    decreases |steps|
  {
    if steps == [] then [] else Came(s, steps[0], id) + AllCame(Next(s, limit, steps[0]), limit, steps[1..], id)
  }

  function AllGot<M>(s: System<M>, limit: nat, steps: seq<Step<M>>, id: nat): seq<M>
    requires IsRun(s, limit, steps)
    decreases |steps|
  {
    if steps == [] then [] else Got(s, steps[0], id) + AllGot(Next(s, limit, steps[0]), limit, steps[1..], id)
  }

  // What the operations at a Mailbox accept and return.
  ghost predicate Says<M>(u: R.State<M>, ops: seq<R.Op<M>>, came: seq<M>, got: seq<M>) {
    Bounded(u.box) && R.IsRun(u, ops) && R.Accepted(u, ops) == came && R.Returned(u, ops) == got
  }

  lemma SaysNothing<M>(u: R.State<M>)
    requires Bounded(u.box)
    ensures Says(u, [], [], [])
  {
  }

  lemma SaysOne<M>(u: R.State<M>, op: R.Op<M>)
    requires Bounded(u.box) && R.Enabled(u, op)
    ensures var r := R.Results(u, op);
            Says(u, [op], if op.Arrive? && !u.box.closed then [op.m] else [],
                 if r != [] && r[0].0.Datagram? then [r[0].0.m] else [])
  {
    assert [op][1..] == [];
    SaysNothing(R.Next(u, op));
  }

  lemma SaysOn<M>(u: R.State<M>, a: seq<R.Op<M>>, v: R.State<M>, b: seq<R.Op<M>>,
                  came: seq<M>, got: seq<M>, more: seq<M>, moreGot: seq<M>)
    requires |a| <= 1 && Leads(u, a, v) && Says(u, a, came, got) && Says(v, b, more, moreGot)
    ensures Says(u, a + b, came + more, got + moreGot)
  {
    if a == [] {
      assert a + b == b && [] + more == more && [] + moreGot == moreGot;
    } else {
      assert (a + b)[1..] == b && a[1..] == [] && a == [a[0]];
      SaysOne(u, a[0]);
      assert v == R.Next(u, a[0]) by {
        assert R.Final(R.Next(u, a[0]), []) == R.Next(u, a[0]);
      }
    }
  }

  lemma CameIs<M>(s: System<M>, limit: nat, step: Step<M>, id: nat)
    requires Enabled(s, step)
    ensures var ops := BoxOps(s, limit, step, id);
            && |ops| <= 1
            && Came(s, step, id) == if ops != [] && ops[0].Arrive? && !BoxAt(s, id).box.closed then [ops[0].m] else []
  {
  }

  lemma GotIs<M>(s: System<M>, limit: nat, step: Step<M>, id: nat)
    requires Enabled(s, step) && Bounded(BoxAt(s, id).box)
    ensures var ops := BoxOps(s, limit, step, id);
            if ops == [] then Got(s, step, id) == []
            else
              R.Enabled(BoxAt(s, id), ops[0]) &&
              var r := R.Results(BoxAt(s, id), ops[0]);
              Got(s, step, id) == if r != [] && r[0].0.Datagram? then [r[0].0.m] else []
  {
  }

  lemma StepSays<M>(s: System<M>, limit: nat, step: Step<M>, id: nat)
    requires Enabled(s, step) && Leads(BoxAt(s, id), BoxOps(s, limit, step, id), BoxAt(Next(s, limit, step), id))
    ensures Says(BoxAt(s, id), BoxOps(s, limit, step, id), Came(s, step, id), Got(s, step, id))
    ensures |BoxOps(s, limit, step, id)| <= 1
  {
    var u, ops := BoxAt(s, id), BoxOps(s, limit, step, id);
    CameIs(s, limit, step, id);
    GotIs(s, limit, step, id);
    if ops == [] {
      SaysNothing(u);
    } else {
      SaysOne(u, ops[0]);
      assert ops == [ops[0]];
    }
  }

  lemma {:induction false} OpsSay<M>(s: System<M>, limit: nat, steps: seq<Step<M>>, id: nat)
    requires Inv(s, limit) && limit > 0 && IsRun(s, limit, steps)
    ensures Says(BoxAt(s, id), AllBoxOps(s, limit, steps, id), AllCame(s, limit, steps, id), AllGot(s, limit, steps, id))
    decreases |steps|
  {
    if steps == [] {
      BoxBounded(s, limit, id);
    } else {
      var t, more := Next(s, limit, steps[0]), steps[1..];
      StepKeepsInv(s, limit, steps[0]);
      OpsSay(t, limit, more, id);
      StepBox(s, limit, steps[0], id);
      StepSays(s, limit, steps[0], id);
      SaysOn(BoxAt(s, id), BoxOps(s, limit, steps[0], id), BoxAt(t, id), AllBoxOps(t, limit, more, id),
             Came(s, steps[0], id), Got(s, steps[0], id), AllCame(t, limit, more, id), AllGot(t, limit, more, id));
    }
  }

  // What came has left, in order, or is still there; what left was got by receivers or lost.
  ghost predicate Accounts<M>(gone: seq<R.Removal<M>>, came: seq<M>, got: seq<M>, box: Box<M>) {
    && came == R.Items(gone) + box.items && got == R.TakenOnly(gone) && box.dropped == R.LostCount(gone)
    && |came| == |got| + box.dropped + |box.items| && |box.items| <= 256
    && forall k :: 0 <= k < |gone| && gone[k].Lost? ==> k + 256 < |came|
  }

  /** In every run, for every Mailbox: the datagrams that came for it, from the first one of its
      source until it was closed, are in this order those its receivers got, those it lost and
      those it still holds. It holds at most 256, and loses a datagram only after as many newer
      ones have come. */
  lemma EveryDatagram<M>(limit: nat, now: int, steps: seq<Step<M>>, id: nat) returns (gone: seq<R.Removal<M>>)
    requires limit > 0 && IsRun(Listening(now), limit, steps)
    ensures Accounts(gone, AllCame(Listening(now), limit, steps, id), AllGot(Listening(now), limit, steps, id),
                     BoxAt(Final(Listening(now), limit, steps), id).box)
  {
    var s: System<M> := Listening(now);
    CoreAtStart<M>(limit, now);
    RunOfBox(s, limit, steps, id);
    OpsSay(s, limit, steps, id);
    gone := RunAccounts(AllBoxOps(s, limit, steps, id), BoxAt(Final(s, limit, steps), id),
                        AllCame(s, limit, steps, id), AllGot(s, limit, steps, id));
  }

  lemma RunAccounts<M>(ops: seq<R.Op<M>>, v: R.State<M>, came: seq<M>, got: seq<M>) returns (gone: seq<R.Removal<M>>)
    requires Leads(R.State(Opened(256), false), ops, v) && Says(R.State(Opened(256), false), ops, came, got)
    ensures Accounts(gone, came, got, v.box)
  {
    R.BoundedFifo(256, ops);
    gone := R.Removed(R.State(Opened(256), false), ops);
  }

  // ---- Why a receive fails ----

  predicate CalledAbort<M>(steps: seq<Step<M>>, id: nat) {
    exists j :: 0 <= j < |steps| && steps[j].Abort? && steps[j].id == id
  }

  lemma {:induction false} AbortedIff<M>(s: System<M>, limit: nat, steps: seq<Step<M>>, id: nat)
    requires IsRun(s, limit, steps)
    ensures id in Final(s, limit, steps).aborted <==> id in s.aborted || CalledAbort(steps, id)
    decreases |steps|
  {
    if steps != [] {
      AbortedIff(Next(s, limit, steps[0]), limit, steps[1..], id);
      assert forall j :: 0 < j < |steps| ==> steps[j] == steps[1..][j - 1];
      assert CalledAbort(steps, id) <==> (steps[0].Abort? && steps[0].id == id) || CalledAbort(steps[1..], id) by {
        if CalledAbort(steps[1..], id) {
          var j :| 0 <= j < |steps[1..]| && steps[1..][j].Abort? && steps[1..][j].id == id;
          assert steps[j + 1].Abort?;
        }
      }
    }
  }

  /** In every run: a look at a Mailbox gives its oldest datagram; without one it waits while
      the Mailbox is open; and otherwise its error says what took the source out of the table.
      If a round of the sweep found it idle, that is CONNECTION_ERROR / IDLE_TIMEOUT; if a new
      source displaced it, CONNECTION_ERROR / RESOURCE_EXHAUSTED; if its own release ran,
      CONNECTION_ERROR / LOCAL_ABORT when abort() was called, and else RECEIVE_ERROR /
      INVALID_STATE. */
  lemma ErrorTellsWhy<M>(limit: nat, now: int, steps: seq<Step<M>>, id: nat, again: bool) returns (k: nat)
    requires limit > 0 && IsRun(Listening(now), limit, steps)
    requires Enabled(Final(Listening(now), limit, steps), Receiver(id, again))
    ensures var t := Final(Listening(now), limit, steps);
            var box, r := t.d.boxes[id], Looking(t, id, again).1;
            && (box.items != [] ==> r == Datagram(box.items[0]))
            && (box.items == [] && !box.closed ==> r == Parked)
            && (box.items == [] && box.closed ==>
                  && k < |steps| && IsRun(Listening(now), limit, steps[..k])
                  && Explains(Final(Listening(now), limit, steps[..k]), limit, steps[k], id, box.cause)
                  && (steps[k].SweepRound? || steps[k].Arrive? || steps[k].RunPosted?)
                  && (steps[k].SweepRound? ==> r == Ended(CONNECTION_ERROR, IDLE_TIMEOUT))
                  && (steps[k].Arrive? ==> r == Ended(CONNECTION_ERROR, RESOURCE_EXHAUSTED))
                  && (steps[k].RunPosted? && CalledAbort(steps, id) ==> r == Ended(CONNECTION_ERROR, LOCAL_ABORT))
                  && (steps[k].RunPosted? && !CalledAbort(steps, id) ==> r == Ended(RECEIVE_ERROR, INVALID_STATE)))
  {
    var s: System<M> := Listening(now);
    k := 0;
    CoreAtStart<M>(limit, now);
    AbortedIff(s, limit, steps, id);
    if ClosedIn(Final(s, limit, steps).d, id) {
      k := CauseTellsWhy(s, limit, steps, id);
    }
  }
}
