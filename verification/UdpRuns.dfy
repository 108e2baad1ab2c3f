/** Runs of a UDP Listener with its Connections: what follows from the invariant of module
    UdpSystem (src/UDPListener.cpp, src/UDPConnection.cpp). */
module UdpRuns {
  import Bytes
  import opened Mailboxes
  import opened Demux
  import opened DemuxTable
  import opened UdpSystem

  /** Once the socket is closed it stays closed; no source is ever added and nothing is
      accepted again, not even for a datagram that arrived before. */
  lemma {:induction false} ClosedForGood<M>(s: System<M>, limit: nat, steps: seq<Step<M>>)
    requires Inv(s, limit) && limit > 0 && IsRun(s, limit, steps) && !s.d.open
    ensures var t := Final(s, limit, steps);
            !t.d.open && t.d.table == [] && !t.d.accepting && t.conns.Keys == s.conns.Keys
    decreases |steps|
  {
    if steps != [] {
      var t := Next(s, limit, steps[0]);
      StepKeepsInv(s, limit, steps[0]);
      ClosedStep(s, limit, steps[0]);
      ClosedForGood(t, limit, steps[1..]);
    }
  }

  lemma ClosedStep<M>(s: System<M>, limit: nat, step: Step<M>)
    requires Inv(s, limit) && Enabled(s, step) && !s.d.open
    ensures !Next(s, limit, step).d.open && Next(s, limit, step).conns.Keys == s.conns.Keys
  {
  }

  /** After the Listener has stopped, a datagram of a listed source still reaches its
      Mailbox and makes it the most recent one; one of any other source changes nothing. */
  lemma ServedAfterStop<M>(s: System<M>, limit: nat, source: Endpoint, now: int, m: M, id: nat)
    requires Inv(s, limit) && limit > 0 && Enabled(s, Arrive(source, now, m, id)) && !s.d.accepting
    ensures var t := Next(s, limit, Arrive(source, now, m, id));
            if exists i :: 0 <= i < |s.d.table| && s.d.table[i].source == source then
              var e := t.d.table[0];
              && e.source == source && e.last == now && e.mailbox in s.d.boxes && e in t.d.table
              && |t.d.table| == |s.d.table| && t.conns == s.conns
              && t.d.boxes == s.d.boxes[e.mailbox := Deliver(s.d.boxes[e.mailbox], m)]
              && t.d.boxes[e.mailbox].items[|t.d.boxes[e.mailbox].items| - 1] == m
            else t == s.(now := now)
  {
    var i := Find(s.d.table, source);
    if i < |s.d.table| {
      assert InTable(s.d.table, s.d.table[i].mailbox);
    }
  }

  /** A release that runs removes an entry exactly when it is for that very source and
      Mailbox; all other entries stay, with their Mailboxes as they are. */
  lemma ReleaseRemovesIff<M>(s: System<M>, limit: nat, source: Endpoint, id: nat, i: nat)
    requires TableSound(s.d, limit, s.now) && s.d.posted != [] && s.d.posted[0] == ReleaseTask(source, id)
    requires i < |s.d.table|
    ensures var t := Next(s, limit, RunPosted);
            && (s.d.table[i] !in t.d.table <==> s.d.table[i].source == source && s.d.table[i].mailbox == id)
            && (s.d.table[i] in t.d.table ==> t.d.boxes[s.d.table[i].mailbox] == s.d.boxes[s.d.table[i].mailbox])
  {
    ReleaseOf(s.d.(posted := s.d.posted[1..]), source, id, i);
  }

  lemma ReleaseOf<M>(d: Demux<M>, source: Endpoint, id: nat, i: nat)
    requires Distinct(d.table) && i < |d.table| && d.table[i].mailbox in d.boxes
    ensures var e, entry := Release(d, source, id), d.table[i];
            && (entry !in e.table <==> entry.source == source && entry.mailbox == id)
            && (entry in e.table ==> entry.mailbox in e.boxes && e.boxes[entry.mailbox] == d.boxes[entry.mailbox])
  {
    var k := Find(d.table, source);
    if k < |d.table| {
      StaysIff(d.table, k, i);
    }
  }

  lemma StaysIff(table: seq<Entry>, k: nat, i: nat)
    requires Distinct(table) && k < |table| && i < |table|
    ensures table[i] in Without(table, k) <==> i != k
  {
    var rest := Without(table, k);
    assert forall j :: 0 <= j < |rest| ==> rest[j] == table[if j < k then j else j + 1];
    if i != k {
      assert rest[if i < k then i else i - 1] == table[i];
    }
  }

  /** So a release that comes late is harmless: when its source has left the table, a later
      entry of the same source, which has another Mailbox, keeps its place. */
  lemma StaleReleaseIsHarmless<M>(s: System<M>, limit: nat)
    requires Inv(s, limit) && s.d.posted != [] && s.d.posted[0].ReleaseTask?
    requires !InTable(s.d.table, s.d.posted[0].mailbox)
    ensures var t := Next(s, limit, RunPosted);
            t.d.table == s.d.table && t.d.boxes == s.d.boxes && t.conns == s.conns
  {
  }

  /** After the release of a listed source has run, and while new sources are accepted, its
      next datagram makes a new Connection with a new Mailbox, which holds just this datagram,
      or nothing when the accept queue has no room for the Connection. */
  lemma FreshAfterRelease<M>(s: System<M>, limit: nat, source: Endpoint, id: nat, now: int, m: M, newId: nat)
    requires Inv(s, limit) && limit > 0 && s.d.posted != [] && s.d.posted[0] == ReleaseTask(source, id)
    requires InTable(s.d.table, id) && s.d.accepting && s.now <= now && newId !in s.d.boxes
    ensures var t := Next(s, limit, RunPosted);
            && Enabled(t, Arrive(source, now, m, newId))
            && NewConnection(t, Next(t, limit, Arrive(source, now, m, newId)), source, now, m, newId)
  {
    StepKeepsInv(s, limit, RunPosted);
    ReleaseClears(s, limit, source, id);
    NewSource(Next(s, limit, RunPosted), limit, source, now, m, newId);
  }

  ghost predicate NewConnection<M>(t: System<M>, u: System<M>, source: Endpoint, now: int, m: M, id: nat) {
    && u.d.table != [] && u.d.table[0] == Entry(source, id, now)
    && id in u.d.boxes && u.d.boxes[id].items == (if HasRoom(t.d) then [m] else []) && !u.d.boxes[id].closed
    && id in u.conns && u.conns[id] == Conn(source, !HasRoom(t.d))
  }

  lemma ReleaseClears<M>(s: System<M>, limit: nat, source: Endpoint, id: nat)
    requires Inv(s, limit) && s.d.posted != [] && s.d.posted[0] == ReleaseTask(source, id)
    requires InTable(s.d.table, id) && s.d.accepting
    ensures var t := Next(s, limit, RunPosted);
            Admits(t.d, source) && t.d.open && t.now == s.now && t.d.boxes.Keys == s.d.boxes.Keys
  {
    var t := Next(s, limit, RunPosted);
    var k :| 0 <= k < |s.d.table| && s.d.table[k].mailbox == id;
    assert s.d.table[k].source == source && Find(s.d.table, source) == k;
    SourceGone(s.d.table, k);
  }

  lemma NewSource<M>(t: System<M>, limit: nat, source: Endpoint, now: int, m: M, newId: nat)
    requires Inv(t, limit) && limit > 0 && Enabled(t, Arrive(source, now, m, newId)) && Admits(t.d, source)
    ensures NewConnection(t, Next(t, limit, Arrive(source, now, m, newId)), source, now, m, newId)
  {
  }

  // The step from s to t has posted the release of Connection id.
  predicate JustPosted<M>(s: System<M>, t: System<M>, id: nat) {
    var before, after := s.d.posted, t.d.posted;
    |after| > |before| && after[|before|].ReleaseTask? && after[|before|].mailbox == id
  }

  // How often the release of Connection id is posted along a run.
  function Posts<M>(s: System<M>, limit: nat, steps: seq<Step<M>>, id: nat): nat
    requires IsRun(s, limit, steps)
    decreases |steps|
  {
    if steps == [] then 0
    else
      var t := Next(s, limit, steps[0]);
      (if JustPosted(s, t, id) then 1 else 0) + Posts(t, limit, steps[1..], id)
  }

  /** However often a Connection is closed, aborted or destroyed: it posts its release at
      most once, and not again once it has. */
  lemma {:induction false} PostsAtMostOnce<M>(s: System<M>, limit: nat, steps: seq<Step<M>>, id: nat)
    requires Inv(s, limit) && limit > 0 && IsRun(s, limit, steps)
    ensures Posts(s, limit, steps, id) <= 1
    ensures id in s.conns && s.conns[id].released ==> Posts(s, limit, steps, id) == 0
    decreases |steps|
  {
    if steps != [] {
      StepKeepsInv(s, limit, steps[0]);
      StepPosts(s, limit, steps[0], id);
      PostsAtMostOnce(Next(s, limit, steps[0]), limit, steps[1..], id);
    }
  }

  // What posting once means for one step.
  predicate PostsFirst<M>(s: System<M>, limit: nat, step: Step<M>, id: nat)
    requires Enabled(s, step)
  {
    var t := Next(s, limit, step);
    && (id in s.conns && s.conns[id].released ==> id in t.conns && t.conns[id].released)
    && (JustPosted(s, t, id) ==> !(id in s.conns && s.conns[id].released) && id in t.conns && t.conns[id].released)
  }

  lemma ArrivePosts<M>(s: System<M>, limit: nat, step: Step<M>, id: nat)
    requires Inv(s, limit) && step.Arrive? && Enabled(s, step)
    ensures PostsFirst(s, limit, step, id)
  {
  }

  lemma TaskPosts<M>(s: System<M>, limit: nat, id: nat)
    requires s.d.posted != []
    ensures PostsFirst(s, limit, RunPosted, id)
  {
    assert |RunTask(s.d).posted| < |s.d.posted|;
  }

  lemma StepPosts<M>(s: System<M>, limit: nat, step: Step<M>, id: nat)
    requires Inv(s, limit) && Enabled(s, step)
    ensures PostsFirst(s, limit, step, id)
  {
    match step {
      case Arrive(_, _, _, _) => ArrivePosts(s, limit, step, id);
      case SweepRound(cutoff) => SweepIsFilter(s.d, cutoff, limit, s.now);
      case RunPosted => TaskPosts(s, limit, id);
      case _ =>
    }
  }

  // ---- Why a source has left ----

  predicate ClosedIn<M>(d: Demux<M>, id: nat) {
    id in d.boxes && d.boxes[id].closed
  }

  // The step is what the cause says: a new source needed the place of the least recent one,
  // a sweep found it idle, or its Connection's own release ran.
  predicate Explains<M>(s: System<M>, limit: nat, step: Step<M>, id: nat, cause: CloseCause) {
    match cause
    case Displaced =>
      && step.Arrive? && Admits(s.d, step.source)
      && |s.d.table| == limit > 0 && s.d.table[limit - 1].mailbox == id
    case Idle => step.SweepRound? && IdleIn(s.d.table, id, step.cutoff)
    case Owner =>
      && step.RunPosted? && s.d.posted != [] && s.d.posted[0].ReleaseTask? && s.d.posted[0].mailbox == id
      && id in s.conns && s.conns[id].released
  }

  // What the step does to a Mailbox's being closed.
  predicate Tells<M>(s: System<M>, limit: nat, step: Step<M>, id: nat)
    requires Enabled(s, step)
  {
    var t := Next(s, limit, step);
    && (ClosedIn(s.d, id) ==> ClosedIn(t.d, id) && t.d.boxes[id].cause == s.d.boxes[id].cause)
    && (!ClosedIn(s.d, id) && ClosedIn(t.d, id) ==> Explains(s, limit, step, id, t.d.boxes[id].cause))
  }

  lemma ArriveTells<M>(s: System<M>, limit: nat, step: Step<M>, id: nat)
    requires Inv(s, limit) && limit > 0 && step.Arrive? && Enabled(s, step)
    ensures Tells(s, limit, step, id)
  {
    var Arrive(source, now, m, newId) := step;
    var i := Find(s.d.table, source);
    if i < |s.d.table| {
      assert InTable(s.d.table, s.d.table[i].mailbox);
    } else if s.d.accepting {
      AdmitTells(s.d, limit, s.now, source, now, m, newId, id);
    }
  }

  // Only the Mailbox of the displaced source is closed.
  predicate RoomMade<M>(d: Demux<M>, limit: nat, e: Demux<M>, id: nat) {
    && (ClosedIn(d, id) ==> ClosedIn(e, id) && e.boxes[id].cause == d.boxes[id].cause)
    && (!ClosedIn(d, id) && ClosedIn(e, id) ==>
          |d.table| == limit > 0 && d.table[limit - 1].mailbox == id && e.boxes[id].cause == Displaced)
  }

  lemma AdmitTells<M>(d: Demux<M>, limit: nat, before: int, source: Endpoint, now: int, m: M, newId: nat, id: nat)
    requires TableSound(d, limit, before) && limit > 0 && newId !in d.boxes
    ensures RoomMade(d, limit, Admit(d, limit, source, now, m, newId), id)
  {
    RoomTells(d, limit, before, id);
    var r := MakeRoom(d, limit);
    assert newId !in r.boxes by {
      RoomTells(d, limit, before, newId);
    }
  }

  lemma RoomTells<M>(d: Demux<M>, limit: nat, now: int, id: nat)
    requires TableSound(d, limit, now) && limit > 0
    ensures var r := MakeRoom(d, limit);
            && (id in r.boxes <==> id in d.boxes)
            && (ClosedIn(d, id) ==> r.boxes[id] == d.boxes[id])
            && (!ClosedIn(d, id) && ClosedIn(r, id) ==>
                  |d.table| == limit && d.table[limit - 1].mailbox == id && r.boxes[id].cause == Displaced)
  {
    MakeRoomSound(d, limit, now);
    if |d.table| >= limit {
      EvictSound(d, |d.table| - 1, Displaced, limit, now);
      assert InTable(d.table, d.table[limit - 1].mailbox);
    }
  }

  lemma SweepTells<M>(s: System<M>, limit: nat, cutoff: int, id: nat)
    requires Inv(s, limit) && s.d.sweep.Due?
    ensures Tells(s, limit, SweepRound(cutoff), id)
  {
    SweepKeepsBoxes(s.d, cutoff, limit, s.now);
    if id in s.d.boxes {
      SweepClosesIdle(s.d, cutoff, limit, s.now, id);
      if IdleIn(s.d.table, id, cutoff) {
        assert InTable(s.d.table, id);
      }
    }
  }

  lemma ReleaseTells<M>(d: Demux<M>, limit: nat, now: int, source: Endpoint, mailbox: nat, id: nat)
    requires TableSound(d, limit, now)
    ensures var e := Release(d, source, mailbox);
            && (ClosedIn(d, id) ==> ClosedIn(e, id) && e.boxes[id].cause == d.boxes[id].cause)
            && (!ClosedIn(d, id) && ClosedIn(e, id) ==> id == mailbox && e.boxes[id].cause == Owner)
  {
    var i := Find(d.table, source);
    if i < |d.table| && d.table[i].mailbox == mailbox {
      EvictSound(d, i, Owner, limit, now);
      assert InTable(d.table, d.table[i].mailbox);
    }
  }

  lemma TaskTells<M>(s: System<M>, limit: nat, id: nat)
    requires Inv(s, limit) && s.d.posted != []
    ensures Tells(s, limit, RunPosted, id)
  {
    var rest := s.d.(posted := s.d.posted[1..]);
    match s.d.posted[0] {
      case ReleaseTask(source, mailbox) => ReleaseTells(rest, limit, s.now, source, mailbox, id);
      case _ => assert RunTask(s.d).boxes == s.d.boxes;
    }
  }

  lemma StepTells<M>(s: System<M>, limit: nat, step: Step<M>, id: nat)
    requires Inv(s, limit) && limit > 0 && Enabled(s, step)
    ensures Tells(s, limit, step, id)
  {
    match step {
      case Arrive(_, _, _, _) => ArriveTells(s, limit, step, id);
      case SweepRound(cutoff) => SweepTells(s, limit, cutoff, id);
      case RunPosted => TaskTells(s, limit, id);
      case _ =>
    }
  }

  lemma {:induction false} CauseStays<M>(s: System<M>, limit: nat, steps: seq<Step<M>>, id: nat)
    requires Inv(s, limit) && limit > 0 && IsRun(s, limit, steps) && ClosedIn(s.d, id)
    ensures var t := Final(s, limit, steps); ClosedIn(t.d, id) && t.d.boxes[id].cause == s.d.boxes[id].cause
    decreases |steps|
  {
    if steps != [] {
      StepKeepsInv(s, limit, steps[0]);
      StepTells(s, limit, steps[0], id);
      CauseStays(Next(s, limit, steps[0]), limit, steps[1..], id);
    }
  }

  /** In every run: the cause a Mailbox is closed with at the end, and hence the error its
      receivers get, is what made its source leave the table: some step of the run displaced
      it, found it idle or ran its own release, and nothing later changes the cause. */
  lemma {:induction false} CauseTellsWhy<M>(s: System<M>, limit: nat, steps: seq<Step<M>>, id: nat) returns (k: nat)
    requires Inv(s, limit) && limit > 0 && IsRun(s, limit, steps)
    requires !ClosedIn(s.d, id) && ClosedIn(Final(s, limit, steps).d, id)
    ensures k < |steps| && IsRun(s, limit, steps[..k])
    ensures Explains(Final(s, limit, steps[..k]), limit, steps[k], id, Final(s, limit, steps).d.boxes[id].cause)
    decreases |steps|
  {
    var t := Next(s, limit, steps[0]);
    StepKeepsInv(s, limit, steps[0]);
    StepTells(s, limit, steps[0], id);
    if ClosedIn(t.d, id) {
      CauseStays(t, limit, steps[1..], id);
      k := 0;
    } else {
      k := CauseTellsWhy(t, limit, steps[1..], id);
      assert steps[..k + 1][1..] == steps[1..][..k];
      k := k + 1;
    }
  }

  // ---- The end of the sweep ----

  /** The step that closes the socket ends the sweep unless its timer has expired already;
      so it never does when it is a round of the sweep itself. */
  lemma SweepAfterClosing<M>(s: System<M>, limit: nat, step: Step<M>)
    requires Inv(s, limit) && limit > 0 && Enabled(s, step) && s.d.open && !Next(s, limit, step).d.open
    ensures Next(s, limit, step).d.sweep.Over? <==> s.d.sweep.Waiting?
  {
    StepKeepsInv(s, limit, step);
    if step.SweepRound? {
      SweepIsFilter(s.d, step.cutoff, limit, s.now);
    }
  }

  // The socket is closed and the sweep goes on, but there is no task, and no Connection that
  // could post one: all are released or wait to be accepted.
  predicate Stranded<M>(s: System<M>) {
    && !s.d.open && !s.d.sweep.Over? && s.d.posted == []
    && forall id :: id in s.conns ==> s.conns[id].released || id in s.d.queue
  }

  // After the run the sweep has ended.
  predicate Ends<M>(s: System<M>, limit: nat, steps: seq<Step<M>>) {
    IsRun(s, limit, steps) && Final(s, limit, steps).d.sweep.Over?
  }

  lemma StaysStranded<M>(s: System<M>, limit: nat, step: Step<M>)
    requires Inv(s, limit) && Stranded(s) && Enabled(s, step)
    ensures Stranded(Next(s, limit, step))
  {
    if step.SweepRound? {
      assert s.d.table == [] && EvictIdle(s.d, step.cutoff) == s.d;
    }
  }

  lemma {:induction false} StrandedForGood<M>(s: System<M>, limit: nat, steps: seq<Step<M>>)
    requires Inv(s, limit) && limit > 0 && Stranded(s)
    ensures !Ends(s, limit, steps)
    decreases |steps|
  {
    if steps != [] && IsRun(s, limit, steps) {
      StepKeepsInv(s, limit, steps[0]);
      StaysStranded(s, limit, steps[0]);
      StrandedForGood(Next(s, limit, steps[0]), limit, steps[1..]);
    }
  }

  // One step more in front.
  lemma EndsLater<M>(s: System<M>, limit: nat, step: Step<M>, steps: seq<Step<M>>)
    requires Enabled(s, step) && Ends(Next(s, limit, step), limit, steps)
    ensures Ends(s, limit, [step] + steps)
  {
    assert ([step] + steps)[1..] == steps;
  }

  // The next task ends a sweep that waits: on a closed socket, all tasks are releases.
  lemma TaskEnds<M>(s: System<M>, limit: nat) returns (steps: seq<Step<M>>)
    requires Inv(s, limit) && !s.d.open && s.d.sweep.Waiting? && s.d.posted != []
    ensures Ends(s, limit, steps)
  {
    assert Ends(Next(s, limit, RunPosted), limit, []);
    EndsLater(s, limit, RunPosted, []);
    steps := [RunPosted] + [];
  }

  lemma WaitingEnds<M>(s: System<M>, limit: nat) returns (steps: seq<Step<M>>)
    requires Inv(s, limit) && limit > 0 && !s.d.open && s.d.sweep.Waiting? && !Stranded(s)
    ensures Ends(s, limit, steps)
  {
    if s.d.posted != [] {
      steps := TaskEnds(s, limit);
    } else {
      var id :| id in s.conns && !s.conns[id].released && id !in s.d.queue;
      StepKeepsInv(s, limit, PostRelease(id));
      steps := TaskEnds(Next(s, limit, PostRelease(id)), limit);
      EndsLater(s, limit, PostRelease(id), steps);
      steps := [PostRelease(id)] + steps;
    }
  }

  /** When the sweep has outlived the socket, it can still end if and only if a release is
      posted or an accepted Connection is left whose release will be. Otherwise it goes on for
      ever, and keeps the demultiplexer alive: Connections that nobody had accepted when the
      Listener stopped are never released. */
  lemma SweepCanEndIff<M>(s: System<M>, limit: nat)
    requires Inv(s, limit) && limit > 0 && !s.d.open && !s.d.sweep.Over?
    ensures (exists steps :: Ends(s, limit, steps)) <==> !Stranded(s)
  {
    if Stranded(s) {
      forall steps
        ensures !Ends(s, limit, steps)
      {
        StrandedForGood(s, limit, steps);
      }
    } else if s.d.sweep.Waiting? {
      var steps := WaitingEnds(s, limit);
    } else {
      var round := SweepRound(s.now);
      var t := Next(s, limit, round);
      StepKeepsInv(s, limit, round);
      assert s.d.table == [] && EvictIdle(s.d, s.now) == s.d;
      var steps := WaitingEnds(t, limit);
      EndsLater(s, limit, round, steps);
    }
  }

  // The steps lead from s to t.
  ghost predicate Leads<M>(s: System<M>, limit: nat, steps: seq<Step<M>>, t: System<M>) {
    IsRun(s, limit, steps) && Final(s, limit, steps) == t
  }

  lemma LeadsBy<M>(s: System<M>, limit: nat, step: Step<M>, steps: seq<Step<M>>, t: System<M>)
    requires Enabled(s, step) && Leads(Next(s, limit, step), limit, steps, t)
    ensures Leads(s, limit, [step] + steps, t)
  {
    assert ([step] + steps)[1..] == steps;
  }

  /** And both happen. A Listener that never had a Connection stops just after the timer has
      expired. */
  lemma StrandedAtOnce<M>(limit: nat)
    ensures var steps := [PostStop, TimerExpires, RunPosted];
            IsRun(Listening<M>(0), limit, steps) && Stranded(Final(Listening<M>(0), limit, steps))
  {
    var s: System<M> := Listening(0);
    var s1 := Next(s, limit, PostStop);
    var s2 := Next(s1, limit, TimerExpires);
    var s3 := Next(s2, limit, RunPosted);
    LeadsBy(s2, limit, RunPosted, [], s3);
    LeadsBy(s1, limit, TimerExpires, [RunPosted], s3);
    LeadsBy(s, limit, PostStop, [TimerExpires, RunPosted], s3);
    var steps: seq<Step<M>> := [PostStop, TimerExpires, RunPosted];
    assert steps == [PostStop] + [TimerExpires, RunPosted];
  }

  /** And a Listener stops before it has accepted the Connection of a source, which then goes
      idle. */
  lemma StrandedInQueue<M>(limit: nat, source: Endpoint, m: M)
    requires limit > 0
    ensures var steps := [Arrive(source, 0, m, 7), PostStop, RunPosted, TimerExpires, SweepRound(31)];
            && IsRun(Listening<M>(0), limit, steps)
            && var t := Final(Listening<M>(0), limit, steps);
               Stranded(t) && t.d.queue == [7] && t.conns == map[7 := Conn(source, false)]
  {
    var s: System<M> := Listening(0);
    var s1 := Next(s, limit, Arrive(source, 0, m, 7));
    assert s1.d.table == [Entry(source, 7, 0)] && s1.d.queue == [7];
    var s2 := Next(s1, limit, PostStop);
    var s3 := Next(s2, limit, RunPosted);
    assert s2.d.posted == [StopTask] && s3.d.posted == [];
    var s4 := Next(s3, limit, TimerExpires);
    var s5 := Next(s4, limit, SweepRound(31));
    assert EvictLast(s4.d, Idle).table == [] && EvictIdle(s4.d, 31) == EvictLast(s4.d, Idle);
    LeadsBy(s4, limit, SweepRound(31), [], s5);
    LeadsBy(s3, limit, TimerExpires, [SweepRound(31)], s5);
    LeadsBy(s2, limit, RunPosted, [TimerExpires, SweepRound(31)], s5);
    LeadsBy(s1, limit, PostStop, [RunPosted, TimerExpires, SweepRound(31)], s5);
    LeadsBy(s, limit, Arrive(source, 0, m, 7), [PostStop, RunPosted, TimerExpires, SweepRound(31)], s5);
    assert [Arrive(source, 0, m, 7)] + [PostStop, RunPosted, TimerExpires, SweepRound(31)]
        == [Arrive(source, 0, m, 7), PostStop, RunPosted, TimerExpires, SweepRound(31)];
  }

  // ---- Accepting ----

  // The Connections that were offered to accept() along a run, and those it took.
  function Offers<M>(s: System<M>, step: Step<M>): seq<nat> {
    if step.Arrive? && Admits(s.d, step.source) && HasRoom(s.d) then [step.id] else []
  }

  function Takes<M>(s: System<M>, step: Step<M>): seq<nat> {
    if step.Arrive? && Admits(s.d, step.source) && s.d.waiters > 0 then [step.id]
    else if step.RunPosted? && s.d.posted != [] && s.d.posted[0].AcceptTask? && s.d.queue != [] then [s.d.queue[0]]
    else []
  }

  function AllOffers<M>(s: System<M>, limit: nat, steps: seq<Step<M>>): seq<nat>
    requires IsRun(s, limit, steps)
    decreases |steps|
  {
    if steps == [] then [] else Offers(s, steps[0]) + AllOffers(Next(s, limit, steps[0]), limit, steps[1..])
  }

  function AllTakes<M>(s: System<M>, limit: nat, steps: seq<Step<M>>): seq<nat>
    requires IsRun(s, limit, steps)
    decreases |steps|
  {
    if steps == [] then [] else Takes(s, steps[0]) + AllTakes(Next(s, limit, steps[0]), limit, steps[1..])
  }

  lemma QueueOnAdmit<M>(d: Demux<M>, limit: nat, source: Endpoint, now: int, m: M, id: nat)
    ensures Admit(d, limit, source, now, m, id).queue
         == if d.waiters == 0 && |d.queue| < ACCEPT_QUEUE then d.queue + [id] else d.queue
  {
  }

  lemma ArriveMoves<M>(s: System<M>, limit: nat, step: Step<M>)
    requires QueueSound(s.d, s.conns) && step.Arrive? && Enabled(s, step)
    ensures s.d.queue + Offers(s, step) == Takes(s, step) + Next(s, limit, step).d.queue
  {
    var Arrive(source, now, m, id) := step;
    if Admits(s.d, source) {
      QueueOnAdmit(s.d, limit, source, now, m, id);
    }
  }

  lemma TaskMoves<M>(s: System<M>, limit: nat)
    requires s.d.posted != []
    ensures s.d.queue == Takes(s, RunPosted) + Next(s, limit, RunPosted).d.queue
  {
    if s.d.posted[0].AcceptTask? && s.d.queue != [] {
      assert s.d.queue == [s.d.queue[0]] + s.d.queue[1..];
    }
  }

  lemma QueueMoves<M>(s: System<M>, limit: nat, step: Step<M>)
    requires Inv(s, limit) && Enabled(s, step)
    ensures s.d.queue + Offers(s, step) == Takes(s, step) + Next(s, limit, step).d.queue
  {
    match step {
      case Arrive(_, _, _, _) => ArriveMoves(s, limit, step);
      case SweepRound(cutoff) => SweepIsFilter(s.d, cutoff, limit, s.now);
      case RunPosted => TaskMoves(s, limit);
      case _ =>
    }
  }

  /** In every run: accept() returns the Connections in the order in which their first
      datagrams came, each once, and those it has not returned are in the queue. */
  lemma {:induction false} AcceptedInOrder<M>(s: System<M>, limit: nat, steps: seq<Step<M>>)
    requires Inv(s, limit) && limit > 0 && IsRun(s, limit, steps)
    ensures s.d.queue + AllOffers(s, limit, steps) == AllTakes(s, limit, steps) + Final(s, limit, steps).d.queue
    decreases |steps|
  {
    if steps != [] {
      var t, more := Next(s, limit, steps[0]), steps[1..];
      StepKeepsInv(s, limit, steps[0]);
      QueueMoves(s, limit, steps[0]);
      AcceptedInOrder(t, limit, more);
      Spliced(s.d.queue, Offers(s, steps[0]), AllOffers(t, limit, more),
              Takes(s, steps[0]), t.d.queue, AllTakes(t, limit, more), Final(t, limit, more).d.queue);
    }
  }

  lemma Spliced<T>(a: seq<T>, b: seq<T>, c: seq<T>, d: seq<T>, e: seq<T>, g: seq<T>, h: seq<T>)
    requires a + b == d + e && e + c == g + h
    ensures a + (b + c) == (d + g) + h
  {
    Bytes.ConcatAssociative(a, b, c);
    Bytes.ConcatAssociative(d, e, c);
    Bytes.ConcatAssociative(d, g, h);
  }

  /** A Connection that is still in the queue when the Listener's stop has run is never
      accepted and never released. */
  lemma {:induction false} UnacceptedForGood<M>(s: System<M>, limit: nat, steps: seq<Step<M>>, id: nat)
    requires Inv(s, limit) && limit > 0 && IsRun(s, limit, steps) && !s.d.accepting && id in s.d.queue
    ensures var t := Final(s, limit, steps); id in t.d.queue && id in t.conns && !t.conns[id].released
    decreases |steps|
  {
    var k :| 0 <= k < |s.d.queue| && s.d.queue[k] == id;
    if steps != [] {
      StepKeepsInv(s, limit, steps[0]);
      QueueStays(s, limit, steps[0]);
      UnacceptedForGood(Next(s, limit, steps[0]), limit, steps[1..], id);
    }
  }

  lemma QueueStays<M>(s: System<M>, limit: nat, step: Step<M>)
    requires Inv(s, limit) && Enabled(s, step) && !s.d.accepting
    ensures Next(s, limit, step).d.queue == s.d.queue && !Next(s, limit, step).d.accepting
  {
    if step.SweepRound? {
      SweepIsFilter(s.d, step.cutoff, limit, s.now);
    }
  }

  // ---- Every accept() is answered, refused, or waits for a Connection ----

  // The calls of accept() that have not reached the strand yet.
  function AcceptsIn(tasks: seq<Task>): nat {
    if tasks == [] then 0 else (if tasks[0].AcceptTask? then 1 else 0) + AcceptsIn(tasks[1..])
  }

  // The calls that have no answer yet.
  function Outstanding<M>(d: Demux<M>): nat {
    AcceptsIn(d.posted) + d.waiters
  }

  // The calls that fail in the step: all that wait when the stop runs, and one that comes
  // to the empty queue after it.
  function Failing<M>(s: System<M>, step: Step<M>): nat {
    if !step.RunPosted? || s.d.posted == [] then 0
    else if s.d.posted[0].StopTask? then s.d.waiters
    else if s.d.posted[0].AcceptTask? && s.d.queue == [] && !s.d.accepting then 1
    else 0
  }

  lemma {:induction false} AcceptsSnoc(tasks: seq<Task>, task: Task)
    ensures AcceptsIn(tasks + [task]) == AcceptsIn(tasks) + if task.AcceptTask? then 1 else 0
  {
    if tasks == [] {
      assert [] + [task] == [task] && [task][1..] == [];
    } else {
      assert (tasks + [task])[1..] == tasks[1..] + [task];
      AcceptsSnoc(tasks[1..], task);
    }
  }

  // What the step does to the number of calls without an answer.
  predicate Answers<M>(s: System<M>, limit: nat, step: Step<M>)
    requires Enabled(s, step)
  {
    Outstanding(s.d) + (if step.PostAccept? then 1 else 0)
    == |Takes(s, step)| + Failing(s, step) + Outstanding(Next(s, limit, step).d)
  }

  lemma ArriveAnswers<M>(s: System<M>, limit: nat, step: Step<M>)
    requires Inv(s, limit) && limit > 0 && step.Arrive? && Enabled(s, step)
    ensures Answers(s, limit, step)
  {
    if Admits(s.d, step.source) {
      AdmitShape(s.d, limit, step.source, step.now, step.m, step.id, s.now);
      AcceptsSnoc(s.d.posted, ReleaseTask(step.source, step.id));
      WaitersOnAdmit(s.d, limit, step.source, step.now, step.m, step.id);
    }
  }

  lemma WaitersOnAdmit<M>(d: Demux<M>, limit: nat, source: Endpoint, now: int, m: M, id: nat)
    ensures Admit(d, limit, source, now, m, id).waiters == if d.waiters > 0 then d.waiters - 1 else 0
  {
  }

  lemma TaskAnswers<M>(s: System<M>, limit: nat)
    requires Inv(s, limit) && s.d.posted != []
    ensures Answers(s, limit, RunPosted)
  {
    match s.d.posted[0] {
      case StopTask => assert RunTask(s.d).waiters == 0;
      case AcceptTask =>
      case ReleaseTask(_, _) => assert RunTask(s.d).waiters == s.d.waiters;
    }
  }

  lemma ReleaseAnswers<M>(s: System<M>, id: nat)
    requires id in s.conns
    ensures Outstanding(Posting(s, id).d) == Outstanding(s.d)
  {
    AcceptsSnoc(s.d.posted, ReleaseTask(s.conns[id].source, id));
  }

  lemma StepAnswers<M>(s: System<M>, limit: nat, step: Step<M>)
    requires Inv(s, limit) && limit > 0 && Enabled(s, step)
    ensures Answers(s, limit, step)
  {
    match step {
      case Arrive(_, _, _, _) => ArriveAnswers(s, limit, step);
      case SweepRound(cutoff) => SweepIsFilter(s.d, cutoff, limit, s.now);
      case RunPosted => TaskAnswers(s, limit);
      case PostAccept => AcceptsSnoc(s.d.posted, AcceptTask);
      case PostStop => AcceptsSnoc(s.d.posted, StopTask);
      case PostRelease(id) => ReleaseAnswers(s, id);
      case Abort(id) => ReleaseAnswers(s, id);
      case _ =>
    }
  }

  function AllCalls<M>(steps: seq<Step<M>>): nat {
    if steps == [] then 0 else (if steps[0].PostAccept? then 1 else 0) + AllCalls(steps[1..])
  }

  function AllFailing<M>(s: System<M>, limit: nat, steps: seq<Step<M>>): nat
    requires IsRun(s, limit, steps)
    decreases |steps|
  {
    if steps == [] then 0 else Failing(s, steps[0]) + AllFailing(Next(s, limit, steps[0]), limit, steps[1..])
  }

  /** In every run: each call of accept() has returned a Connection, has failed because the
      Listener had stopped, or is still under way; and while one waits at the channel, no
      Connection is in the queue and the Listener accepts new sources. */
  lemma {:induction false} EveryAccept<M>(s: System<M>, limit: nat, steps: seq<Step<M>>)
    requires Inv(s, limit) && limit > 0 && IsRun(s, limit, steps)
    ensures var t := Final(s, limit, steps);
            && Outstanding(s.d) + AllCalls(steps)
               == |AllTakes(s, limit, steps)| + AllFailing(s, limit, steps) + Outstanding(t.d)
            && (t.d.waiters > 0 ==> t.d.queue == [] && t.d.accepting)
    decreases |steps|
  {
    if steps != [] {
      StepKeepsInv(s, limit, steps[0]);
      StepAnswers(s, limit, steps[0]);
      EveryAccept(Next(s, limit, steps[0]), limit, steps[1..]);
    }
  }

  // ---- stop() ----

  predicate Stopped<M>(steps: seq<Step<M>>) {
    exists j :: 0 <= j < |steps| && steps[j].PostStop?
  }

  lemma {:induction false} ListeningIff<M>(s: System<M>, limit: nat, steps: seq<Step<M>>)
    requires IsRun(s, limit, steps)
    ensures Final(s, limit, steps).listening <==> s.listening && !Stopped(steps)
    decreases |steps|
  {
    if steps != [] {
      ListeningIff(Next(s, limit, steps[0]), limit, steps[1..]);
      assert forall j :: 0 < j < |steps| ==> steps[j] == steps[1..][j - 1];
      assert Stopped(steps) <==> steps[0].PostStop? || Stopped(steps[1..]) by {
        if Stopped(steps[1..]) {
          var j :| 0 <= j < |steps[1..]| && steps[1..][j].PostStop?;
          assert steps[j + 1].PostStop?;
        }
      }
    }
  }

  /** In every run: new sources are accepted exactly until the Listener has been stopped and
      what it posted then has run. After that no accept() waits, and the socket is open
      exactly as long as a source is left. */
  lemma StopTakesEffect<M>(limit: nat, now: int, steps: seq<Step<M>>)
    requires limit > 0 && IsRun(Listening(now), limit, steps)
    ensures var t := Final(Listening(now), limit, steps);
            && (!t.d.accepting <==> Stopped(steps) && StopTask !in t.d.posted)
            && (!t.d.accepting ==> t.d.waiters == 0 && (t.d.open <==> t.d.table != []))
  {
    AlwaysSound<M>(limit, now, steps);
    ListeningIff(Listening(now), limit, steps);
  }
}
