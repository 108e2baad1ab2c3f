/** A UDP Listener with all its Connections (src/UDPListener.cpp, src/UDPConnection.cpp): the
    steps on its strand and of the calls that post work to it, and what every step keeps. */
module UdpSystem {
  import opened Mailboxes
  import opened UDPReceptions
  import opened Demux
  import opened DemuxTable

  // The Connections are named by their Mailboxes. listening: the Listener has not stopped.
  // aborted: the Connections that have been aborted.
  datatype System<M> = System(d: Demux<M>, conns: map<nat, Conn>, listening: bool, now: int, aborted: set<nat>)

  // After a successful listen().
  function Listening<M>(now: int): System<M> {
    System(Started(), map[], true, now, {})
  }

  datatype Step<M> =
    | Arrive(source: Endpoint, now: int, m: M, id: nat)              // receive_loop(), one datagram
    | TimerExpires                                                   // the sweep's timer
    | SweepRound(cutoff: int)                                        // sweep_loop(), one round
    | RunPosted                                                      // the next posted task
    | PostAccept                                                     // accept()
    | PostStop                                                       // stop() or the Listener's destructor
    | PostRelease(id: nat)                                           // close() or the destructor
    | Abort(id: nat)                                                 // abort()
    | Receiver(id: nat, again: bool)                                 // a receiver looks at its Mailbox

  // A Connection in the accept queue belongs to nobody who could close or destroy it. `id`
  // names a Mailbox that is just being made: no earlier one has that identity. A
  // datagram may arrive after the socket was closed: its handler was queued before.
  predicate Enabled<M>(s: System<M>, step: Step<M>) {
    match step
    case Arrive(_, now, _, id) => s.now <= now && id !in s.d.boxes
    case TimerExpires => s.d.sweep.Waiting?
    case SweepRound(_) => s.d.sweep.Due?
    case RunPosted => s.d.posted != []
    case PostAccept => s.listening
    case PostStop => s.listening
    case PostRelease(id) => id in s.conns && id !in s.d.queue
    case Abort(id) => id in s.conns && id !in s.d.queue
    case Receiver(id, again) => id in s.d.boxes && (again ==> s.d.boxes[id].woken > 0)
  }

  predicate Admits<M>(d: Demux<M>, source: Endpoint) {
    Find(d.table, source) == |d.table| && d.accepting
  }

  // release() of a Connection.
  function Posting<M>(s: System<M>, id: nat): System<M>
    requires id in s.conns
  {
    var (conn, posted) := Releasing(s.conns[id], id, s.d.posted);
    s.(d := s.d.(posted := posted), conns := s.conns[id := conn])
  }

  // What receive() sees in its Mailbox.
  function Looking<M>(s: System<M>, id: nat, again: bool): (Box<M>, Reception<M>)
    requires Enabled(s, Receiver(id, again))
  {
    if again then LookAgain(s.d.boxes[id], id in s.aborted) else Look(s.d.boxes[id], id in s.aborted)
  }

  function Next<M>(s: System<M>, limit: nat, step: Step<M>): System<M>
    requires Enabled(s, step)
  {
    match step
    case Arrive(source, now, m, id) =>
      s.(d := OnDatagram(s.d, limit, source, now, m, id),
         conns := if Admits(s.d, source) then s.conns[id := Conn(source, !HasRoom(s.d))] else s.conns,
         now := now)
    case TimerExpires => s.(d := s.d.(sweep := Due))
    case SweepRound(cutoff) => s.(d := Sweep(s.d, cutoff))
    case RunPosted => s.(d := RunTask(s.d))
    case PostAccept => s.(d := s.d.(posted := s.d.posted + [AcceptTask]))
    case PostStop => s.(d := s.d.(posted := s.d.posted + [StopTask]), listening := false)
    case PostRelease(id) => Posting(s, id)
    case Abort(id) => Posting(s, id).(aborted := s.aborted + {id})
    case Receiver(id, again) => s.(d := s.d.(boxes := s.d.boxes[id := Looking(s, id, again).0]))
  }

  predicate IsRun<M>(s: System<M>, limit: nat, steps: seq<Step<M>>)
    decreases |steps|
  {
    steps == [] || (Enabled(s, steps[0]) && IsRun(Next(s, limit, steps[0]), limit, steps[1..]))
  }

  function Final<M>(s: System<M>, limit: nat, steps: seq<Step<M>>): System<M>
    requires IsRun(s, limit, steps)
    decreases |steps|
  {
    if steps == [] then s else Final(Next(s, limit, steps[0]), limit, steps[1..])
  }

  // ---- The invariant ----

  predicate Posted(tasks: seq<Task>, source: Endpoint, id: nat) {
    ReleaseTask(source, id) in tasks
  }

  // A release is posted only by the Connection it is for, and only once.
  predicate ReleasesSound(conns: map<nat, Conn>, tasks: seq<Task>) {
    && (forall k :: 0 <= k < |tasks| && tasks[k].ReleaseTask? ==>
          tasks[k].mailbox in conns && conns[tasks[k].mailbox] == Conn(tasks[k].source, true))
    && (forall j, k :: 0 <= j < k < |tasks| && tasks[j].ReleaseTask? && tasks[k].ReleaseTask? ==>
          tasks[j].mailbox != tasks[k].mailbox)
  }

  // A source in the table belongs to a Connection whose release has not run yet.
  predicate EntriesOwned(table: seq<Entry>, conns: map<nat, Conn>, tasks: seq<Task>) {
    forall i :: 0 <= i < |table| ==>
      && table[i].mailbox in conns && conns[table[i].mailbox].source == table[i].source
      && (conns[table[i].mailbox].released ==> Posted(tasks, table[i].source, table[i].mailbox))
  }

  predicate Core<M>(s: System<M>, limit: nat) {
    && TableSound(s.d, limit, s.now) && SocketSound(s.d)
    && s.conns.Keys == s.d.boxes.Keys
    && ReleasesSound(s.conns, s.d.posted)
    && EntriesOwned(s.d.table, s.conns, s.d.posted)
    && (s.d.open ==> !s.d.sweep.Over?)
  }

  lemma CoreAtStart<M>(limit: nat, now: int)
    ensures Core(Listening<M>(now), limit)
  {
  }

  lemma PostedSnoc(tasks: seq<Task>, t: Task, source: Endpoint, id: nat)
    ensures Posted(tasks + [t], source, id) <==> Posted(tasks, source, id) || t == ReleaseTask(source, id)
  {
  }

  // The table has the entry, perhaps with another time.
  predicate Among(e: Entry, table: seq<Entry>) {
    exists j :: 0 <= j < |table| && e.source == table[j].source && e.mailbox == table[j].mailbox
  }

  predicate From(fewer: seq<Entry>, table: seq<Entry>) {
    forall i :: 0 <= i < |fewer| ==> Among(fewer[i], table)
  }

  lemma OwnedStay(table: seq<Entry>, fewer: seq<Entry>, conns: map<nat, Conn>, tasks: seq<Task>)
    requires EntriesOwned(table, conns, tasks) && From(fewer, table)
    ensures EntriesOwned(fewer, conns, tasks)
  {
  }

  lemma WithoutFrom(table: seq<Entry>, i: nat)
    requires i < |table|
    ensures From(Without(table, i), table)
  {
    var rest := Without(table, i);
    forall k | 0 <= k < |rest|
      ensures Among(rest[k], table)
    {
      var j := if k < i then k else k + 1;
      assert rest[k] == table[j] && 0 <= j < |table|;
    }
  }

  // ---- Datagrams ----

  lemma TouchKeepsCore<M>(s: System<M>, limit: nat, source: Endpoint, now: int, m: M, id: nat)
    requires Core(s, limit) && limit > 0 && s.now <= now && id !in s.d.boxes
    requires Find(s.d.table, source) < |s.d.table|
    ensures Core(Next(s, limit, Arrive(source, now, m, id)), limit)
  {
    ArrivalSound(s.d, limit, source, now, m, id, s.now);
    var i := Find(s.d.table, source);
    var next := [s.d.table[i].(last := now)] + Without(s.d.table, i);
    WithoutFrom(s.d.table, i);
    forall k | 0 <= k < |next|
      ensures Among(next[k], s.d.table)
    {
      if k > 0 {
        assert next[k] == Without(s.d.table, i)[k - 1];
      }
    }
    OwnedStay(s.d.table, next, s.conns, s.d.posted);
  }

  lemma AdmitShape<M>(d: Demux<M>, limit: nat, source: Endpoint, now: int, m: M, id: nat, before: int)
    requires TableSound(d, limit, before) && limit > 0
    ensures var e, kept := Admit(d, limit, source, now, m, id), MakeRoom(d, limit).table;
            && e.table == [Entry(source, id, now)] + kept && kept == d.table[..|kept|]
            && e.boxes.Keys == d.boxes.Keys + {id}
            && e.posted == (if HasRoom(d) then d.posted else d.posted + [ReleaseTask(source, id)])
            && e.open == d.open && e.sweep == d.sweep && e.accepting == d.accepting
  {
    MakeRoomSound(d, limit, before);
    assert MakeRoom(d, limit).boxes.Keys == d.boxes.Keys;
  }

  lemma AdmitKeepsCore<M>(s: System<M>, limit: nat, source: Endpoint, now: int, m: M, id: nat)
    requires Core(s, limit) && limit > 0 && s.now <= now && id !in s.d.boxes
    requires Admits(s.d, source)
    ensures Core(Next(s, limit, Arrive(source, now, m, id)), limit)
  {
    ArrivalSound(s.d, limit, source, now, m, id, s.now);
    AdmitShape(s.d, limit, source, now, m, id, s.now);
    var e := Admit(s.d, limit, source, now, m, id);
    AdmittedOwned(s, MakeRoom(s.d, limit).table, source, now, id, HasRoom(s.d), e.posted);
  }

  lemma AdmittedOwned<M>(s: System<M>, table: seq<Entry>, source: Endpoint, now: int, id: nat, room: bool,
                         tasks: seq<Task>)
    requires ReleasesSound(s.conns, s.d.posted) && EntriesOwned(s.d.table, s.conns, s.d.posted) && id !in s.conns
    requires |table| <= |s.d.table| && table == s.d.table[..|table|]
    requires tasks == if room then s.d.posted else s.d.posted + [ReleaseTask(source, id)]
    ensures var conns := s.conns[id := Conn(source, !room)];
            && ReleasesSound(conns, tasks)
            && EntriesOwned([Entry(source, id, now)] + table, conns, tasks)
  {
    var conns, next := s.conns[id := Conn(source, !room)], [Entry(source, id, now)] + table;
    forall i | 0 <= i < |next|
      ensures next[i].mailbox in conns && conns[next[i].mailbox].source == next[i].source
      ensures conns[next[i].mailbox].released ==> Posted(tasks, next[i].source, next[i].mailbox)
    {
      if i == 0 {
        assert tasks == s.d.posted || tasks[|s.d.posted|] == ReleaseTask(source, id);
      } else {
        assert next[i] == s.d.table[i - 1];
        PostedSnoc(s.d.posted, ReleaseTask(source, id), next[i].source, next[i].mailbox);
      }
    }
  }

  lemma ArriveKeepsCore<M>(s: System<M>, limit: nat, step: Step<M>)
    requires Core(s, limit) && limit > 0 && step.Arrive? && Enabled(s, step)
    ensures Core(Next(s, limit, step), limit)
  {
    var Arrive(source, now, m, id) := step;
    if Find(s.d.table, source) < |s.d.table| {
      TouchKeepsCore(s, limit, source, now, m, id);
    } else if s.d.accepting {
      AdmitKeepsCore(s, limit, source, now, m, id);
    }
  }

  // ---- The sweep ----

  lemma {:induction false} KeptFrom(table: seq<Entry>, cutoff: int)
    ensures From(Kept(table, cutoff), table)
  {
    if table != [] {
      var rest, kept := Kept(table[1..], cutoff), Kept(table, cutoff);
      KeptFrom(table[1..], cutoff);
      forall k | 0 <= k < |kept|
        ensures Among(kept[k], table)
      {
        if kept[k] != table[0] {
          assert kept[k] in rest;
          var l :| 0 <= l < |rest| && rest[l] == kept[k];
          assert Among(rest[l], table[1..]);
          var more := table[1..];
          var j :| 0 <= j < |more| && rest[l].source == more[j].source && rest[l].mailbox == more[j].mailbox;
          assert table[j + 1] == more[j];
        }
      }
    }
  }

  lemma SweepKeepsCore<M>(s: System<M>, limit: nat, cutoff: int)
    requires Core(s, limit) && s.d.sweep.Due?
    ensures Core(Next(s, limit, SweepRound(cutoff)), limit)
  {
    SweepSound(s.d, cutoff, limit, s.now);
    SweepIsFilter(s.d, cutoff, limit, s.now);
    SweepKeepsBoxes(s.d, cutoff, limit, s.now);
    KeptFrom(s.d.table, cutoff);
    var e := EvictIdle(s.d, cutoff);
    OwnedStay(s.d.table, e.table, s.conns, s.d.posted);
  }

  lemma {:induction false} SweepKeepsBoxes<M>(d: Demux<M>, cutoff: int, limit: nat, now: int)
    requires TableSound(d, limit, now)
    ensures EvictIdle(d, cutoff).boxes.Keys == d.boxes.Keys
    decreases |d.table|
  {
    if d.table != [] && d.table[|d.table| - 1].last < cutoff {
      LastEvicted(d, cutoff, limit, now);
      SweepKeepsBoxes(EvictLast(d, Idle), cutoff, limit, now);
    }
  }

  // ---- Tasks ----

  lemma TaskKeepsCore<M>(s: System<M>, limit: nat)
    requires Core(s, limit) && s.d.posted != []
    ensures Core(Next(s, limit, RunPosted), limit)
  {
    TaskSound(s.d, limit, s.now);
    match s.d.posted[0] {
      case StopTask => OtherKeepsOwners(s, limit);
      case AcceptTask => OtherKeepsOwners(s, limit);
      case ReleaseTask(source, id) => ReleaseKeepsOwners(s, limit, source, id);
    }
  }

  lemma TailReleases(conns: map<nat, Conn>, tasks: seq<Task>)
    requires ReleasesSound(conns, tasks) && tasks != []
    ensures ReleasesSound(conns, tasks[1..])
    ensures forall source, id :: Posted(tasks, source, id) && tasks[0] != ReleaseTask(source, id) ==>
              Posted(tasks[1..], source, id)
  {
  }

  // A task that is no release leaves the table and the Mailboxes.
  lemma OtherTask<M>(d: Demux<M>)
    requires d.posted != [] && !d.posted[0].ReleaseTask?
    ensures var e := RunTask(d);
            && e.table == d.table && e.boxes == d.boxes && e.posted == d.posted[1..]
            && (e.open ==> d.open && e.sweep == d.sweep)
  {
  }

  lemma OtherKeepsOwners<M>(s: System<M>, limit: nat)
    requires Core(s, limit) && s.d.posted != [] && !s.d.posted[0].ReleaseTask?
    ensures var t := Next(s, limit, RunPosted);
            && t.conns.Keys == t.d.boxes.Keys && ReleasesSound(t.conns, t.d.posted)
            && EntriesOwned(t.d.table, t.conns, t.d.posted) && (t.d.open ==> !t.d.sweep.Over?)
  {
    OtherTask(s.d);
    TailReleases(s.conns, s.d.posted);
  }

  // The first release has run: its Connection has no entry any more.
  lemma OwnersAfterRelease(table: seq<Entry>, fewer: seq<Entry>, conns: map<nat, Conn>, tasks: seq<Task>)
    requires ReleasesSound(conns, tasks) && EntriesOwned(table, conns, tasks) && tasks != [] && tasks[0].ReleaseTask?
    requires From(fewer, table) && !InTable(fewer, tasks[0].mailbox)
    ensures ReleasesSound(conns, tasks[1..]) && EntriesOwned(fewer, conns, tasks[1..])
  {
    TailReleases(conns, tasks);
    OwnedStay(table, fewer, conns, tasks);
    forall k | 0 <= k < |fewer|
      ensures conns[fewer[k].mailbox].released ==> Posted(tasks[1..], fewer[k].source, fewer[k].mailbox)
    {
      assert fewer[k].mailbox != tasks[0].mailbox;
    }
  }

  lemma ReleaseTakes<M>(d: Demux<M>, conns: map<nat, Conn>, tasks: seq<Task>, source: Endpoint, id: nat)
    requires Distinct(d.table) && EntriesOwned(d.table, conns, tasks) && id in conns && conns[id].source == source
    ensures From(Release(d, source, id).table, d.table) && !InTable(Release(d, source, id).table, id)
  {
    var i := Find(d.table, source);
    if i < |d.table| && d.table[i].mailbox == id {
      WithoutFrom(d.table, i);
      WithoutListed(d.table, i, id);
    } else {
      NotListed(d.table, conns, tasks, source, id);
    }
  }

  // An entry of the Connection is where its source is.
  lemma NotListed(table: seq<Entry>, conns: map<nat, Conn>, tasks: seq<Task>, source: Endpoint, id: nat)
    requires Distinct(table) && EntriesOwned(table, conns, tasks) && id in conns && conns[id].source == source
    requires Find(table, source) < |table| ==> table[Find(table, source)].mailbox != id
    ensures !InTable(table, id)
  {
    forall k | 0 <= k < |table|
      ensures table[k].mailbox != id
    {
      assert table[k].source == source ==> k == Find(table, source);
    }
  }

  lemma ReleaseKeepsOwners<M>(s: System<M>, limit: nat, source: Endpoint, id: nat)
    requires Core(s, limit) && s.d.posted != [] && s.d.posted[0] == ReleaseTask(source, id)
    ensures var t := Next(s, limit, RunPosted);
            && t.conns.Keys == t.d.boxes.Keys && ReleasesSound(t.conns, t.d.posted)
            && EntriesOwned(t.d.table, t.conns, t.d.posted) && (t.d.open ==> !t.d.sweep.Over?)
  {
    TaskSound(s.d, limit, s.now);
    ReleaseTakes(s.d.(posted := s.d.posted[1..]), s.conns, s.d.posted, source, id);
    OwnersAfterRelease(s.d.table, Next(s, limit, RunPosted).d.table, s.conns, s.d.posted);
  }

  // ---- Calls ----

  // One more task, and every release that was posted still is.
  lemma MorePosted(tasks: seq<Task>, task: Task)
    ensures forall source, id :: Posted(tasks, source, id) ==> Posted(tasks + [task], source, id)
    ensures task.ReleaseTask? ==> Posted(tasks + [task], task.source, task.mailbox)
  {
    assert (tasks + [task])[|tasks|] == task;
  }

  // accept() or stop()
  lemma PostKeepsCore<M>(s: System<M>, limit: nat, step: Step<M>)
    requires Core(s, limit) && (step.PostAccept? || step.PostStop?) && Enabled(s, step)
    ensures Core(Next(s, limit, step), limit)
  {
    MorePosted(s.d.posted, if step.PostStop? then StopTask else AcceptTask);
  }

  lemma ReleaseKeepsCore<M>(s: System<M>, limit: nat, id: nat)
    requires Core(s, limit) && id in s.conns
    ensures Core(Posting(s, id), limit)
  {
    var t := Posting(s, id);
    if s.conns[id].released {
      assert t == s;
    } else {
      MorePosted(s.d.posted, ReleaseTask(s.conns[id].source, id));
    }
  }

  lemma LookKeepsCore<M>(s: System<M>, limit: nat, id: nat, again: bool)
    requires Core(s, limit) && Enabled(s, Receiver(id, again))
    ensures Core(Next(s, limit, Receiver(id, again)), limit)
  {
    var t := Next(s, limit, Receiver(id, again));
    assert t.d.boxes.Keys == s.d.boxes.Keys;
  }

  lemma StepKeepsCore<M>(s: System<M>, limit: nat, step: Step<M>)
    requires Core(s, limit) && limit > 0 && Enabled(s, step)
    ensures Core(Next(s, limit, step), limit)
  {
    match step {
      case Arrive(_, _, _, _) => ArriveKeepsCore(s, limit, step);
      case TimerExpires =>
      case SweepRound(cutoff) => SweepKeepsCore(s, limit, cutoff);
      case RunPosted => TaskKeepsCore(s, limit);
      case PostAccept => PostKeepsCore(s, limit, step);
      case PostStop => PostKeepsCore(s, limit, step);
      case PostRelease(id) => ReleaseKeepsCore(s, limit, id);
      case Abort(id) => ReleaseKeepsCore(s, limit, id);
      case Receiver(id, again) => LookKeepsCore(s, limit, id, again);
    }
  }

  // ---- The accept queue ----

  /** The queue holds unreleased Connections, each once and no more than it has room for;
      accept() calls wait only while it is empty and open. */
  predicate QueueSound<M>(d: Demux<M>, conns: map<nat, Conn>) {
    && (forall i :: 0 <= i < |d.queue| ==> d.queue[i] in conns && !conns[d.queue[i]].released)
    && (forall i, j :: 0 <= i < j < |d.queue| ==> d.queue[i] != d.queue[j])
    && |d.queue| <= ACCEPT_QUEUE
    && (d.waiters > 0 ==> d.queue == []) && (!d.accepting ==> d.waiters == 0)
  }

  lemma QueueOnArrive<M>(s: System<M>, limit: nat, step: Step<M>)
    requires Core(s, limit) && QueueSound(s.d, s.conns) && limit > 0 && step.Arrive? && Enabled(s, step)
    ensures QueueSound(Next(s, limit, step).d, Next(s, limit, step).conns)
  {
    if Admits(s.d, step.source) {
      QueueOnAdmission(s, limit, step);
    }
  }

  lemma QueueOnAdmission<M>(s: System<M>, limit: nat, step: Step<M>)
    requires QueueSound(s.d, s.conns) && step.Arrive? && Admits(s.d, step.source) && step.id !in s.conns
    ensures var e := Admit(s.d, limit, step.source, step.now, step.m, step.id);
            QueueSound(e, s.conns[step.id := Conn(step.source, !HasRoom(s.d))])
  {
  }

  lemma AcceptSound<M>(d: Demux<M>, conns: map<nat, Conn>)
    requires QueueSound(d, conns)
    ensures QueueSound(AcceptNext(d), conns)
  {
  }

  lemma QueueOnTask<M>(s: System<M>, limit: nat)
    requires QueueSound(s.d, s.conns) && s.d.posted != []
    ensures QueueSound(Next(s, limit, RunPosted).d, s.conns)
  {
    AcceptSound(s.d, s.conns);
  }

  lemma QueueOnRelease<M>(s: System<M>, id: nat)
    requires QueueSound(s.d, s.conns) && id in s.conns && id !in s.d.queue
    ensures QueueSound(Posting(s, id).d, Posting(s, id).conns)
  {
  }

  lemma StepKeepsQueue<M>(s: System<M>, limit: nat, step: Step<M>)
    requires Core(s, limit) && QueueSound(s.d, s.conns) && limit > 0 && Enabled(s, step)
    ensures QueueSound(Next(s, limit, step).d, Next(s, limit, step).conns)
  {
    match step {
      case Arrive(_, _, _, _) => QueueOnArrive(s, limit, step);
      case SweepRound(cutoff) => SweepIsFilter(s.d, cutoff, limit, s.now);
      case RunPosted => QueueOnTask(s, limit);
      case PostRelease(id) => QueueOnRelease(s, id);
      case Abort(id) => QueueOnRelease(s, id);
      case _ =>
    }
  }

  // ---- The Listener ----

  /** The Listener stops once, and what it has posted before runs before. */
  predicate ListenerSound<M>(s: System<M>) {
    && (s.listening <==> s.d.accepting && StopTask !in s.d.posted)
    && (!s.d.accepting ==> forall k :: 0 <= k < |s.d.posted| ==> s.d.posted[k].ReleaseTask?)
    && (forall j, k :: 0 <= j < k < |s.d.posted| && s.d.posted[j].StopTask? ==> s.d.posted[k].ReleaseTask?)
  }

  lemma PostedKeepsListener<M>(s: System<M>, t: System<M>, task: Task)
    requires ListenerSound(s) && t.d.posted == s.d.posted + [task] && t.d.accepting == s.d.accepting
    requires task.ReleaseTask? || s.listening
    requires t.listening == (s.listening && task != StopTask)
    ensures ListenerSound(t)
  {
    assert t.d.posted[|s.d.posted|] == task;
    assert forall k :: 0 <= k < |s.d.posted| ==> t.d.posted[k] == s.d.posted[k];
    assert StopTask in s.d.posted ==> StopTask in t.d.posted;
  }

  lemma TaskKeepsListener<M>(s: System<M>, limit: nat)
    requires ListenerSound(s) && s.d.posted != []
    ensures ListenerSound(Next(s, limit, RunPosted))
  {
    var rest := s.d.posted[1..];
    assert forall k :: 0 <= k < |rest| ==> rest[k] == s.d.posted[k + 1];
    assert StopTask in s.d.posted <==> s.d.posted[0] == StopTask || StopTask in rest;
  }

  lemma ReleaseKeepsListener<M>(s: System<M>, id: nat)
    requires ListenerSound(s) && id in s.conns
    ensures ListenerSound(Posting(s, id))
  {
    if !s.conns[id].released {
      PostedKeepsListener(s, Posting(s, id), ReleaseTask(s.conns[id].source, id));
    }
  }

  lemma StepKeepsListener<M>(s: System<M>, limit: nat, step: Step<M>)
    requires Core(s, limit) && ListenerSound(s) && limit > 0 && Enabled(s, step)
    ensures ListenerSound(Next(s, limit, step))
  {
    var t := Next(s, limit, step);
    match step {
      case Arrive(source, _, _, id) =>
        if Admits(s.d, source) && !HasRoom(s.d) {
          PostedKeepsListener(s, t, ReleaseTask(source, id));
        }
      case SweepRound(cutoff) => SweepIsFilter(s.d, cutoff, limit, s.now);
      case RunPosted => TaskKeepsListener(s, limit);
      case PostAccept => PostedKeepsListener(s, t, AcceptTask);
      case PostStop => PostedKeepsListener(s, t, StopTask);
      case PostRelease(id) => ReleaseKeepsListener(s, id);
      case Abort(id) => ReleaseKeepsListener(s, id);
      case _ =>
    }
  }

  // ---- The invariant of all of it ----

  predicate Inv<M>(s: System<M>, limit: nat) {
    Core(s, limit) && QueueSound(s.d, s.conns) && ListenerSound(s)
  }

  lemma StepKeepsInv<M>(s: System<M>, limit: nat, step: Step<M>)
    requires Inv(s, limit) && limit > 0 && Enabled(s, step)
    ensures Inv(Next(s, limit, step), limit)
  {
    StepKeepsCore(s, limit, step);
    StepKeepsQueue(s, limit, step);
    StepKeepsListener(s, limit, step);
  }

  lemma {:induction false} RunKeepsInv<M>(s: System<M>, limit: nat, steps: seq<Step<M>>)
    requires Inv(s, limit) && limit > 0 && IsRun(s, limit, steps)
    ensures Inv(Final(s, limit, steps), limit)
    decreases |steps|
  {
    if steps != [] {
      StepKeepsInv(s, limit, steps[0]);
      RunKeepsInv(Next(s, limit, steps[0]), limit, steps[1..]);
    }
  }

  /** In every run from a successful start, after every step: the list is sorted by last
      activity, holds each source and Mailbox once and no more of them than the limit; a
      Mailbox is open exactly while it is listed; the socket is closed exactly when nothing
      can use it any more; every listed source has a Connection whose release has not run;
      while the socket is open the sweep goes on; and the accept queue holds unreleased
      Connections, in a bounded number, each once. */
  lemma AlwaysSound<M>(limit: nat, now: int, steps: seq<Step<M>>)
    requires limit > 0 && IsRun(Listening(now), limit, steps)
    ensures Inv(Final(Listening(now), limit, steps), limit)
  {
    CoreAtStart<M>(limit, now);
    RunKeepsInv(Listening(now), limit, steps);
  }
}
