/** Why a release may name a Mailbox by its address (src/UDPListener.cpp:193-198): the system
    of module UdpSystem with addresses, at which a Mailbox can be made where an earlier one
    was freed. */
module AddressReuse {
  import opened Mailboxes
  import opened Demux
  import opened DemuxTable
  import opened UdpSystem

  // at: where the Mailbox of each Connection was made. gone: the Connections destroyed.
  datatype Heap<M> = Heap(s: System<M>, at: map<nat, nat>, gone: set<nat>)

  datatype Move<M> =
    | Datagram(source: Endpoint, now: int, m: M, id: nat, address: nat)
    | Destroy(id: nat)                     // the destructor of a Connection
    | Other(step: Step<M>)

  function Begun<M>(): Heap<M> {
    Heap(Listening(0), map[], {})
  }

  // The table or the Connection itself holds the Mailbox.
  predicate Held(table: seq<Entry>, gone: set<nat>, id: nat) {
    InTable(table, id) || id !in gone
  }

  predicate SameAddress(at: map<nat, nat>, i: nat, j: nat) {
    i in at && j in at && at[i] == at[j]
  }

  // No Mailbox that somebody holds is there; the one of a displaced source is freed first.
  predicate Free<M>(h: Heap<M>, limit: nat, address: nat) {
    forall id :: id in h.at && Held(MakeRoom(h.s.d, limit).table, h.gone, id) ==> h.at[id] != address
  }

  predicate Possible<M>(h: Heap<M>, limit: nat, move: Move<M>) {
    match move
    case Datagram(source, now, m, id, address) =>
      && Enabled(h.s, Arrive(source, now, m, id))
      && (Admits(h.s.d, source) ==> Free(h, limit, address))
    case Destroy(id) => Enabled(h.s, PostRelease(id)) && id !in h.gone
    case Other(step) =>
      !step.Arrive? && Enabled(h.s, step) && (step.PostRelease? || step.Abort? ==> step.id !in h.gone)
  }

  // The posted task of release(): the Mailbox at this address, of this source.
  function ReleaseAt<M>(d: Demux<M>, source: Endpoint, at: map<nat, nat>, id: nat): Demux<M> {
    var i := Find(d.table, source);
    ShutDownIfUnused(if i < |d.table| && SameAddress(at, d.table[i].mailbox, id) then Evict(d, i, Owner) else d)
  }

  // The next task is a release.
  predicate Releases<M>(h: Heap<M>, move: Move<M>) {
    move == Other(RunPosted) && h.s.d.posted != [] && h.s.d.posted[0].ReleaseTask?
  }

  function After<M>(h: Heap<M>, limit: nat, move: Move<M>): Heap<M>
    requires Possible(h, limit, move)
  {
    match move
    case Datagram(source, now, m, id, address) =>
      var s := Next(h.s, limit, Arrive(source, now, m, id));
      if Admits(h.s.d, source) then
        Heap(s, h.at[id := address], if HasRoom(h.s.d) then h.gone else h.gone + {id})
      else h.(s := s)
    case Destroy(id) => h.(s := Next(h.s, limit, PostRelease(id)), gone := h.gone + {id})
    case Other(step) =>
      if step.RunPosted? && h.s.d.posted[0].ReleaseTask? then
        var ReleaseTask(source, id) := h.s.d.posted[0];
        h.(s := h.s.(d := ReleaseAt(h.s.d.(posted := h.s.d.posted[1..]), source, h.at, id)))
      else h.(s := Next(h.s, limit, step))
  }

  // ---- What can go wrong ----

  // The release of one Connection is about to end another one.
  predicate Wrong<M>(h: Heap<M>, move: Move<M>) {
    Releases(h, move) &&
    var ReleaseTask(source, id) := h.s.d.posted[0];
    var i := Find(h.s.d.table, source);
    i < |h.s.d.table| && h.s.d.table[i].mailbox != id && SameAddress(h.at, h.s.d.table[i].mailbox, id)
  }

  // The Mailbox of a new Connection is put where an earlier one of the same source was whose
  // release is still posted.
  predicate Reuses<M>(h: Heap<M>, move: Move<M>) {
    && move.Datagram? && Admits(h.s.d, move.source)
    && exists k :: 0 <= k < |h.s.d.posted| && h.s.d.posted[k].ReleaseTask? && h.s.d.posted[k].source == move.source
                   && h.s.d.posted[k].mailbox in h.at && h.at[h.s.d.posted[k].mailbox] == move.address
  }

  /** Apart from that, addresses do what identities do in module UdpSystem. */
  lemma AsIdentitiesUnlessWrong<M>(h: Heap<M>, limit: nat, step: Step<M>)
    requires HeapSound(h, limit) && Possible(h, limit, Other(step)) && !Wrong(h, Other(step))
    ensures After(h, limit, Other(step)).s == Next(h.s, limit, step)
  {
  }

  // ---- The invariant ----

  /** Mailboxes that somebody holds are at different addresses, and a Connection that is
      destroyed has posted its release. */
  predicate HeapSound<M>(h: Heap<M>, limit: nat) {
    && Inv(h.s, limit) && h.at.Keys == h.s.conns.Keys
    && (forall id :: id in h.gone ==> id in h.s.conns && h.s.conns[id].released)
    && Apart(h.s.d.table, h.at, h.gone)
  }

  predicate Apart(table: seq<Entry>, at: map<nat, nat>, gone: set<nat>) {
    forall i, j :: i in at && j in at && i != j && Held(table, gone, i) && Held(table, gone, j) ==> at[i] != at[j]
  }

  lemma ApartOfFewer(table: seq<Entry>, fewer: seq<Entry>, at: map<nat, nat>, gone: set<nat>, more: set<nat>)
    requires Apart(table, at, gone) && gone <= more
    requires forall id :: InTable(fewer, id) ==> InTable(table, id)
    ensures Apart(fewer, at, more)
  {
  }

  lemma ListedFrom(table: seq<Entry>, fewer: seq<Entry>)
    requires From(fewer, table)
    ensures forall id :: InTable(fewer, id) ==> InTable(table, id)
  {
    forall id | InTable(fewer, id)
      ensures InTable(table, id)
    {
      var i :| 0 <= i < |fewer| && fewer[i].mailbox == id;
      assert Among(fewer[i], table);
    }
  }

  // ---- A release by address keeps the system sound ----

  lemma ReleaseAtShape<M>(d: Demux<M>, source: Endpoint, at: map<nat, nat>, id: nat)
    ensures var e := ReleaseAt(d, source, at, id);
            && e.accepting == d.accepting && e.queue == d.queue && e.waiters == d.waiters && e.posted == d.posted
  {
  }

  lemma ReleaseAtSound<M>(d: Demux<M>, source: Endpoint, at: map<nat, nat>, id: nat, limit: nat, now: int)
    requires TableSound(d, limit, now) && SocketSound(d) && (d.open ==> !d.sweep.Over?)
    ensures var e := ReleaseAt(d, source, at, id);
            TableSound(e, limit, now) && SocketSound(e) && e.boxes.Keys == d.boxes.Keys && (e.open ==> !e.sweep.Over?)
  {
    var i := Find(d.table, source);
    if i < |d.table| && SameAddress(at, d.table[i].mailbox, id) {
      EvictSound(d, i, Owner, limit, now);
      ShutDownSound(Evict(d, i, Owner), limit, now);
      assert d.table[i].mailbox in d.boxes;
    } else {
      ShutDownSound(d, limit, now);
    }
  }

  lemma ReleaseAtTakes<M>(d: Demux<M>, conns: map<nat, Conn>, tasks: seq<Task>, source: Endpoint,
                           at: map<nat, nat>, id: nat)
    requires Distinct(d.table) && EntriesOwned(d.table, conns, tasks)
    requires id in conns && id in at && conns[id].source == source
    ensures From(ReleaseAt(d, source, at, id).table, d.table) && !InTable(ReleaseAt(d, source, at, id).table, id)
  {
    var i := Find(d.table, source);
    if i < |d.table| && SameAddress(at, d.table[i].mailbox, id) {
      WithoutFrom(d.table, i);
      WithoutListed(d.table, i, id);
      if d.table[i].mailbox != id {
        NotListed(d.table, conns, tasks, source, id);
      }
    } else {
      NotListed(d.table, conns, tasks, source, id);
    }
  }

  lemma CoreAfterRelease<M>(s: System<M>, limit: nat, at: map<nat, nat>, source: Endpoint, id: nat)
    requires Core(s, limit) && s.d.posted != [] && s.d.posted[0] == ReleaseTask(source, id) && id in at
    ensures var e := ReleaseAt(s.d.(posted := s.d.posted[1..]), source, at, id);
            Core(s.(d := e), limit) && From(e.table, s.d.table)
  {
    var rest := s.d.(posted := s.d.posted[1..]);
    var e := ReleaseAt(rest, source, at, id);
    ReleaseAtShape(rest, source, at, id);
    ReleaseAtSound(rest, source, at, id, limit, s.now);
    ReleaseAtTakes(rest, s.conns, s.d.posted, source, at, id);
    OwnersAfterRelease(s.d.table, e.table, s.conns, s.d.posted);
  }

  lemma RestAfterRelease<M>(s: System<M>, limit: nat, at: map<nat, nat>, source: Endpoint, id: nat)
    requires QueueSound(s.d, s.conns) && ListenerSound(s)
    requires s.d.posted != [] && s.d.posted[0] == ReleaseTask(source, id)
    ensures var e := ReleaseAt(s.d.(posted := s.d.posted[1..]), source, at, id);
            QueueSound(e, s.conns) && ListenerSound(s.(d := e))
  {
    ReleaseAtShape(s.d.(posted := s.d.posted[1..]), source, at, id);
    TaskKeepsListener(s, limit);
  }

  lemma ReleaseMoves<M>(h: Heap<M>, limit: nat)
    requires HeapSound(h, limit) && Releases(h, Other(RunPosted))
    ensures HeapSound(After(h, limit, Other(RunPosted)), limit)
  {
    var ReleaseTask(source, id) := h.s.d.posted[0];
    var e := After(h, limit, Other(RunPosted)).s.d;
    CoreAfterRelease(h.s, limit, h.at, source, id);
    RestAfterRelease(h.s, limit, h.at, source, id);
    ListedFrom(h.s.d.table, e.table);
    ApartOfFewer(h.s.d.table, e.table, h.at, h.gone, h.gone);
  }

  // ---- The other moves ----

  lemma TouchMoves<M>(h: Heap<M>, limit: nat, move: Move<M>)
    requires HeapSound(h, limit) && limit > 0 && Possible(h, limit, move) && move.Datagram? && !Admits(h.s.d, move.source)
    ensures HeapSound(After(h, limit, move), limit)
  {
    var Datagram(source, now, m, id, address) := move;
    var t := After(h, limit, move);
    StepKeepsInv(h.s, limit, Arrive(source, now, m, id));
    var i := Find(h.s.d.table, source);
    if i < |h.s.d.table| {
      forall k
        ensures InTable(t.s.d.table, k) <==> InTable(h.s.d.table, k)
      {
        TouchListed(h.s.d.table, i, now, k);
      }
    }
    ApartOfFewer(h.s.d.table, t.s.d.table, h.at, h.gone, h.gone);
  }

  // A new Mailbox at a free address.
  lemma ApartWithNew(kept: seq<Entry>, entry: Entry, at: map<nat, nat>, gone: set<nat>, address: nat,
                     more: set<nat>)
    requires Apart(kept, at, gone) && entry.mailbox !in at && gone <= more
    requires forall j :: j in at && Held(kept, gone, j) ==> at[j] != address
    ensures Apart([entry] + kept, at[entry.mailbox := address], more)
  {
    var next := at[entry.mailbox := address];
    forall i, j | i in next && j in next && i != j && Held([entry] + kept, more, i) && Held([entry] + kept, more, j)
      ensures next[i] != next[j]
    {
      PushedListed(kept, entry, i);
      PushedListed(kept, entry, j);
      assert i != entry.mailbox ==> Held(kept, gone, i);
      assert j != entry.mailbox ==> Held(kept, gone, j);
    }
  }

  lemma AdmitMoves<M>(h: Heap<M>, limit: nat, move: Move<M>)
    requires HeapSound(h, limit) && limit > 0 && Possible(h, limit, move) && move.Datagram? && Admits(h.s.d, move.source)
    ensures HeapSound(After(h, limit, move), limit)
  {
    var Datagram(source, now, m, id, address) := move;
    StepKeepsInv(h.s, limit, Arrive(source, now, m, id));
    AdmitKeepsApart(h, limit, move);
  }

  lemma AdmitKeepsApart<M>(h: Heap<M>, limit: nat, move: Move<M>)
    requires HeapSound(h, limit) && limit > 0 && Possible(h, limit, move) && move.Datagram? && Admits(h.s.d, move.source)
    ensures var t := After(h, limit, move); Apart(t.s.d.table, t.at, t.gone)
  {
    var Datagram(source, now, m, id, address) := move;
    var t, kept := After(h, limit, move), MakeRoom(h.s.d, limit).table;
    AdmitShape(h.s.d, limit, source, now, m, id, h.s.now);
    KeptListed(h.s.d.table, kept);
    ApartOfFewer(h.s.d.table, kept, h.at, h.gone, h.gone);
    ApartWithNew(kept, Entry(source, id, now), h.at, h.gone, address, t.gone);
  }

  lemma KeptListed(table: seq<Entry>, kept: seq<Entry>)
    requires |kept| <= |table| && kept == table[..|kept|]
    ensures forall id :: InTable(kept, id) ==> InTable(table, id)
  {
    assert forall i :: 0 <= i < |kept| ==> kept[i] == table[i];
  }

  lemma DestroyMoves<M>(h: Heap<M>, limit: nat, id: nat)
    requires HeapSound(h, limit) && limit > 0 && Possible(h, limit, Destroy(id))
    ensures HeapSound(After(h, limit, Destroy(id)), limit)
  {
    StepKeepsInv(h.s, limit, PostRelease(id));
  }

  // Steps other than datagrams and releases leave the table, but for the sweep, and all
  // Connections.
  lemma OtherKeeps<M>(s: System<M>, limit: nat, step: Step<M>)
    requires Enabled(s, step) && !step.Arrive? && !step.SweepRound?
    requires step.RunPosted? ==> !s.d.posted[0].ReleaseTask?
    ensures var t := Next(s, limit, step);
            && t.conns.Keys == s.conns.Keys && t.d.table == s.d.table
            && forall id :: id in s.conns && s.conns[id].released ==> t.conns[id].released
  {
  }

  lemma OtherMoves<M>(h: Heap<M>, limit: nat, step: Step<M>)
    requires HeapSound(h, limit) && limit > 0 && Possible(h, limit, Other(step)) && !Releases(h, Other(step))
    ensures HeapSound(After(h, limit, Other(step)), limit)
  {
    var t := After(h, limit, Other(step));
    StepKeepsInv(h.s, limit, step);
    if step.SweepRound? {
      SweepIsFilter(h.s.d, step.cutoff, limit, h.s.now);
      KeptFrom(h.s.d.table, step.cutoff);
      ListedFrom(h.s.d.table, t.s.d.table);
      ApartOfFewer(h.s.d.table, t.s.d.table, h.at, h.gone, h.gone);
    } else {
      OtherKeeps(h.s, limit, step);
    }
  }

  lemma MoveKeepsSound<M>(h: Heap<M>, limit: nat, move: Move<M>)
    requires HeapSound(h, limit) && limit > 0 && Possible(h, limit, move)
    ensures HeapSound(After(h, limit, move), limit)
  {
    match move {
      case Datagram(source, _, _, _, _) =>
        if Admits(h.s.d, source) {
          AdmitMoves(h, limit, move);
        } else {
          TouchMoves(h, limit, move);
        }
      case Destroy(id) => DestroyMoves(h, limit, id);
      case Other(step) =>
        if Releases(h, move) {
          ReleaseMoves(h, limit);
        } else {
          OtherMoves(h, limit, step);
        }
    }
  }

  // ---- Threats ----

  // The k-th posted task is a release that would end the listed Connection j, but is for
  // another one.
  predicate Threat<M>(h: Heap<M>, j: nat, k: nat) {
    && k < |h.s.d.posted| && h.s.d.posted[k].ReleaseTask? && j in h.s.conns && InTable(h.s.d.table, j)
    && h.s.d.posted[k].mailbox != j && h.s.conns[j].source == h.s.d.posted[k].source
    && SameAddress(h.at, j, h.s.d.posted[k].mailbox)
  }

  predicate PostedFor(tasks: seq<Task>, k: nat, id: nat) {
    k < |tasks| && tasks[k].ReleaseTask? && tasks[k].mailbox == id
  }

  ghost predicate Endangered<M>(h: Heap<M>) {
    exists j: nat, k: nat :: Threat(h, j, k)
  }

  // The Connection's own release is never posted in front of one that threatens it.
  ghost predicate Ordered<M>(h: Heap<M>) {
    forall j: nat, k: nat, i: nat :: Threat(h, j, k) && i < k ==> !PostedFor(h.s.d.posted, i, j)
  }

  // Every threat was one before, at a task that is `shift` places further back now.
  ghost predicate NoNewThreat<M>(h: Heap<M>, t: Heap<M>, shift: nat) {
    forall j: nat, k: nat :: Threat(t, j, k) ==> Threat(h, j, k + shift)
  }

  // The posted tasks up to the last one, without the first `shift` ones, are the same.
  predicate SameTasks(tasks: seq<Task>, next: seq<Task>, shift: nat) {
    && shift <= |tasks| <= |next| + shift
    && forall k :: 0 <= k < |tasks| - shift ==> next[k] == tasks[k + shift]
  }

  lemma OrderedStays<M>(h: Heap<M>, t: Heap<M>, shift: nat)
    requires Ordered(h) && NoNewThreat(h, t, shift) && SameTasks(h.s.d.posted, t.s.d.posted, shift)
    ensures Ordered(t) && (Endangered(t) ==> Endangered(h))
  {
    forall j: nat, k: nat, i: nat | Threat(t, j, k) && i < k
      ensures !PostedFor(t.s.d.posted, i, j)
    {
      assert Threat(h, j, k + shift) && !PostedFor(h.s.d.posted, i + shift, j);
    }
    if Endangered(t) {
      var j: nat, k: nat :| Threat(t, j, k);
      assert Threat(h, j, k + shift);
    }
  }

  // The sources of Connections and the addresses of their Mailboxes do not change.
  predicate SameNames<M>(h: Heap<M>, t: Heap<M>) {
    && (forall id :: id in h.s.conns ==> id in t.s.conns && t.s.conns[id].source == h.s.conns[id].source)
    && (forall id :: id in h.at ==> id in t.at && t.at[id] == h.at[id])
  }

  lemma FewerThreats<M>(h: Heap<M>, t: Heap<M>, limit: nat, shift: nat)
    requires HeapSound(h, limit) && SameNames(h, t)
    requires SameTasks(h.s.d.posted, t.s.d.posted, shift) && |t.s.d.posted| + shift == |h.s.d.posted|
    requires forall id :: InTable(t.s.d.table, id) ==> InTable(h.s.d.table, id)
    ensures NoNewThreat(h, t, shift)
  {
    forall j: nat, k: nat | Threat(t, j, k)
      ensures Threat(h, j, k + shift)
    {
      ListedKnown(h, limit, j);
      assert t.s.d.posted[k] == h.s.d.posted[k + shift];
    }
  }

  lemma ListedKnown<M>(h: Heap<M>, limit: nat, j: nat)
    requires HeapSound(h, limit) && InTable(h.s.d.table, j)
    ensures j in h.s.conns && j in h.at
    ensures exists i ::
              0 <= i < |h.s.d.table| && h.s.d.table[i].mailbox == j && h.s.d.table[i].source == h.s.conns[j].source
  {
    var i :| 0 <= i < |h.s.d.table| && h.s.d.table[i].mailbox == j;
    assert h.s.d.table[i].source == h.s.conns[j].source;
  }

  // A release that is posted while the Connection holds its Mailbox threatens nobody.
  lemma OwnPostThreatensNone<M>(h: Heap<M>, t: Heap<M>, limit: nat, id: nat)
    requires HeapSound(h, limit) && SameNames(h, t) && id in h.s.conns && id !in h.gone
    requires t.s.d.table == h.s.d.table
    requires t.s.d.posted == h.s.d.posted + [ReleaseTask(h.s.conns[id].source, id)]
    ensures NoNewThreat(h, t, 0)
  {
    forall j: nat, k: nat | Threat(t, j, k)
      ensures Threat(h, j, k + 0)
    {
      ListedKnown(h, limit, j);
      assert Held(h.s.d.table, h.gone, j) && Held(h.s.d.table, h.gone, id);
      assert j != id ==> h.at[j] != h.at[id];
      if k < |h.s.d.posted| {
        assert t.s.d.posted[k] == h.s.d.posted[k];
      }
    }
  }

  // What a move that reuses no address does to the threats.
  ghost predicate Harmless<M>(h: Heap<M>, t: Heap<M>) {
    exists shift: nat :: NoNewThreat(h, t, shift) && SameTasks(h.s.d.posted, t.s.d.posted, shift)
  }

  lemma TouchHarmless<M>(h: Heap<M>, limit: nat, move: Move<M>)
    requires HeapSound(h, limit) && Possible(h, limit, move) && move.Datagram? && !Admits(h.s.d, move.source)
    ensures Harmless(h, After(h, limit, move))
  {
    var Datagram(source, now, m, id, address) := move;
    var t := After(h, limit, move);
    var i := Find(h.s.d.table, source);
    if i < |h.s.d.table| {
      forall k
        ensures InTable(t.s.d.table, k) <==> InTable(h.s.d.table, k)
      {
        TouchListed(h.s.d.table, i, now, k);
      }
    }
    FewerThreats(h, t, limit, 0);
  }

  // A new Connection is threatened by an earlier release exactly when its address is reused.
  lemma NewThreat<M>(h: Heap<M>, limit: nat, move: Move<M>, k: nat)
    requires HeapSound(h, limit) && Possible(h, limit, move) && move.Datagram? && Admits(h.s.d, move.source)
    requires k < |h.s.d.posted| && limit > 0
    ensures var p := h.s.d.posted[k];
            Threat(After(h, limit, move), move.id, k)
            <==> p.ReleaseTask? && p.source == move.source && p.mailbox in h.at && h.at[p.mailbox] == move.address
  {
    var Datagram(source, now, m, id, address) := move;
    var t := After(h, limit, move);
    AdmitShape(h.s.d, limit, source, now, m, id, h.s.now);
    PushedListed(MakeRoom(h.s.d, limit).table, Entry(source, id, now), id);
    assert t.s.d.posted[k] == h.s.d.posted[k];
  }

  lemma OldThreat<M>(h: Heap<M>, limit: nat, move: Move<M>, j: nat, k: nat)
    requires HeapSound(h, limit) && Possible(h, limit, move) && move.Datagram? && Admits(h.s.d, move.source)
    requires limit > 0 && j != move.id && Threat(After(h, limit, move), j, k)
    ensures Threat(h, j, k)
  {
    var Datagram(source, now, m, id, address) := move;
    var kept := MakeRoom(h.s.d, limit).table;
    AdmitShape(h.s.d, limit, source, now, m, id, h.s.now);
    PushedListed(kept, Entry(source, id, now), j);
    KeptListed(h.s.d.table, kept);
    ListedKnown(h, limit, j);
    assert k < |h.s.d.posted| ==> After(h, limit, move).s.d.posted[k] == h.s.d.posted[k];
  }

  lemma AdmitHarmless<M>(h: Heap<M>, limit: nat, move: Move<M>)
    requires HeapSound(h, limit) && limit > 0 && Possible(h, limit, move) && move.Datagram? && Admits(h.s.d, move.source)
    requires !Reuses(h, move)
    ensures Harmless(h, After(h, limit, move))
  {
    var t := After(h, limit, move);
    AdmitShape(h.s.d, limit, move.source, move.now, move.m, move.id, h.s.now);
    forall j: nat, k: nat | Threat(t, j, k)
      ensures Threat(h, j, k + 0)
    {
      if j == move.id {
        OwnIsLast(h, limit, move, k);
        NewThreat(h, limit, move, k);
      } else {
        OldThreat(h, limit, move, j, k);
      }
    }
    assert NoNewThreat(h, t, 0) && SameTasks(h.s.d.posted, t.s.d.posted, 0);
  }

  // A new Connection's own release, if it is refused, is no threat to it.
  lemma OwnIsLast<M>(h: Heap<M>, limit: nat, move: Move<M>, k: nat)
    requires HeapSound(h, limit) && Possible(h, limit, move) && move.Datagram? && Admits(h.s.d, move.source)
    requires limit > 0 && Threat(After(h, limit, move), move.id, k)
    ensures k < |h.s.d.posted|
  {
    AdmitShape(h.s.d, limit, move.source, move.now, move.m, move.id, h.s.now);
  }

  lemma PostHarmless<M>(h: Heap<M>, t: Heap<M>, limit: nat, id: nat)
    requires HeapSound(h, limit) && Enabled(h.s, PostRelease(id)) && id !in h.gone
    requires t.s == Next(h.s, limit, PostRelease(id)) && t.at == h.at
    ensures Harmless(h, t)
  {
    if h.s.conns[id].released {
      FewerThreats(h, t, limit, 0);
    } else {
      OwnPostThreatensNone(h, t, limit, id);
      assert SameTasks(h.s.d.posted, t.s.d.posted, 0);
    }
  }

  // The next task only shortens the table.
  lemma TaskShape<M>(h: Heap<M>, limit: nat)
    requires HeapSound(h, limit) && h.s.d.posted != []
    ensures var t := After(h, limit, Other(RunPosted));
            && t.s.d.posted == h.s.d.posted[1..] && t.s.conns == h.s.conns && t.at == h.at && t.gone == h.gone
            && forall id :: InTable(t.s.d.table, id) ==> InTable(h.s.d.table, id)
  {
    if Releases(h, Other(RunPosted)) {
      var ReleaseTask(source, id) := h.s.d.posted[0];
      CoreAfterRelease(h.s, limit, h.at, source, id);
      ReleaseAtShape(h.s.d.(posted := h.s.d.posted[1..]), source, h.at, id);
      ListedFrom(h.s.d.table, After(h, limit, Other(RunPosted)).s.d.table);
    }
  }

  lemma TaskHarmless<M>(h: Heap<M>, limit: nat)
    requires HeapSound(h, limit) && h.s.d.posted != []
    ensures Harmless(h, After(h, limit, Other(RunPosted)))
  {
    TaskShape(h, limit);
    FewerThreats(h, After(h, limit, Other(RunPosted)), limit, 1);
  }

  lemma OtherHarmless<M>(h: Heap<M>, limit: nat, step: Step<M>)
    requires HeapSound(h, limit) && Possible(h, limit, Other(step)) && !step.RunPosted? && !step.PostRelease?
    ensures Harmless(h, After(h, limit, Other(step)))
  {
    var t := After(h, limit, Other(step));
    if step.SweepRound? {
      SweepIsFilter(h.s.d, step.cutoff, limit, h.s.now);
      KeptFrom(h.s.d.table, step.cutoff);
      ListedFrom(h.s.d.table, t.s.d.table);
    }
    forall j: nat, k: nat | Threat(t, j, k)
      ensures Threat(h, j, k + 0)
    {
      assert k < |h.s.d.posted| ==> t.s.d.posted[k] == h.s.d.posted[k];
    }
    assert NoNewThreat(h, t, 0) && SameTasks(h.s.d.posted, t.s.d.posted, 0);
  }

  lemma MoveHarmless<M>(h: Heap<M>, limit: nat, move: Move<M>)
    requires HeapSound(h, limit) && limit > 0 && Possible(h, limit, move) && !Reuses(h, move)
    ensures Harmless(h, After(h, limit, move))
  {
    match move {
      case Datagram(source, _, _, _, _) =>
        if Admits(h.s.d, source) {
          AdmitHarmless(h, limit, move);
        } else {
          TouchHarmless(h, limit, move);
        }
      case Destroy(id) => PostHarmless(h, After(h, limit, move), limit, id);
      case Other(step) =>
        if step.RunPosted? {
          TaskHarmless(h, limit);
        } else if step.PostRelease? {
          PostHarmless(h, After(h, limit, move), limit, step.id);
        } else {
          OtherHarmless(h, limit, step);
        }
    }
  }

  lemma AdmitOrdered<M>(h: Heap<M>, limit: nat, move: Move<M>)
    requires HeapSound(h, limit) && Ordered(h) && limit > 0
    requires Possible(h, limit, move) && move.Datagram? && Admits(h.s.d, move.source)
    ensures Ordered(After(h, limit, move))
  {
    var t := After(h, limit, move);
    AdmitShape(h.s.d, limit, move.source, move.now, move.m, move.id, h.s.now);
    forall j: nat, k: nat, i: nat | Threat(t, j, k) && i < k
      ensures !PostedFor(t.s.d.posted, i, j)
    {
      assert i < |h.s.d.posted| && t.s.d.posted[i] == h.s.d.posted[i];
      if j != move.id {
        OldThreat(h, limit, move, j, k);
        assert !PostedFor(h.s.d.posted, i, j);
      }
    }
  }

  lemma MoveKeepsOrdered<M>(h: Heap<M>, limit: nat, move: Move<M>)
    requires HeapSound(h, limit) && Ordered(h) && limit > 0 && Possible(h, limit, move)
    ensures Ordered(After(h, limit, move))
    ensures !Reuses(h, move) && Endangered(After(h, limit, move)) ==> Endangered(h)
  {
    var t := After(h, limit, move);
    if move.Datagram? && Admits(h.s.d, move.source) {
      AdmitOrdered(h, limit, move);
    }
    if !Reuses(h, move) {
      MoveHarmless(h, limit, move);
      var shift: nat :| NoNewThreat(h, t, shift) && SameTasks(h.s.d.posted, t.s.d.posted, shift);
      OrderedStays(h, t, shift);
    }
  }

  lemma ReuseThreatens<M>(h: Heap<M>, limit: nat, move: Move<M>) returns (k: nat)
    requires HeapSound(h, limit) && limit > 0 && Possible(h, limit, move) && Reuses(h, move)
    ensures Threat(After(h, limit, move), move.id, k)
  {
    var posted := h.s.d.posted;
    k :| 0 <= k < |posted| && posted[k].ReleaseTask? && posted[k].source == move.source
         && posted[k].mailbox in h.at && h.at[posted[k].mailbox] == move.address;
    NewThreat(h, limit, move, k);
  }

  lemma WrongIsThreat<M>(h: Heap<M>, limit: nat, move: Move<M>)
    requires HeapSound(h, limit) && Wrong(h, move)
    ensures Endangered(h)
  {
    var i := Find(h.s.d.table, h.s.d.posted[0].source);
    var j := h.s.d.table[i].mailbox;
    assert InTable(h.s.d.table, j);
    assert Threat(h, j, 0);
  }

  // ---- Histories ----

  // Which free address a new Mailbox may be put at.
  type Policy<!M> = (Heap<M>, Endpoint, nat) -> bool

  predicate IsHistory<M>(h: Heap<M>, limit: nat, policy: Policy<M>, moves: seq<Move<M>>)
    decreases |moves|
  {
    moves == [] ||
    (&& Possible(h, limit, moves[0])
     && (moves[0].Datagram? && Admits(h.s.d, moves[0].source) ==> policy(h, moves[0].source, moves[0].address))
     && IsHistory(After(h, limit, moves[0]), limit, policy, moves[1..]))
  }

  predicate GoesWrong<M>(h: Heap<M>, limit: nat, policy: Policy<M>, moves: seq<Move<M>>)
    requires IsHistory(h, limit, policy, moves)
    decreases |moves|
  {
    moves != [] && (Wrong(h, moves[0]) || GoesWrong(After(h, limit, moves[0]), limit, policy, moves[1..]))
  }

  ghost predicate HasReuse<M>(h: Heap<M>, limit: nat, policy: Policy<M>, moves: seq<Move<M>>)
    requires IsHistory(h, limit, policy, moves)
    decreases |moves|
  {
    moves != [] && (Reuses(h, moves[0]) || HasReuse(After(h, limit, moves[0]), limit, policy, moves[1..]))
  }

  lemma {:induction false} NoReuseNoWrong<M>(h: Heap<M>, limit: nat, policy: Policy<M>, moves: seq<Move<M>>)
    requires HeapSound(h, limit) && Ordered(h) && !Endangered(h) && limit > 0
    requires IsHistory(h, limit, policy, moves) && !HasReuse(h, limit, policy, moves)
    ensures !GoesWrong(h, limit, policy, moves)
    decreases |moves|
  {
    if moves != [] {
      var t := After(h, limit, moves[0]);
      MoveKeepsSound(h, limit, moves[0]);
      MoveKeepsOrdered(h, limit, moves[0]);
      NoReuseNoWrong(t, limit, policy, moves[1..]);
      if Wrong(h, moves[0]) {
        WrongIsThreat(h, limit, moves[0]);
      }
    }
  }

  // A release takes Connection j off the list only if it is for j, or goes wrong.
  lemma StaysListed<M>(h: Heap<M>, limit: nat, j: nat)
    requires HeapSound(h, limit) && InTable(h.s.d.table, j) && Releases(h, Other(RunPosted))
    requires !Wrong(h, Other(RunPosted)) && !PostedFor(h.s.d.posted, 0, j)
    ensures InTable(After(h, limit, Other(RunPosted)).s.d.table, j)
  {
    var ReleaseTask(source, id) := h.s.d.posted[0];
    var f := Find(h.s.d.table, source);
    if f < |h.s.d.table| && SameAddress(h.at, h.s.d.table[f].mailbox, id) {
      WithoutListed(h.s.d.table, f, j);
    }
  }

  // What threatens Connection j is next only if it is about to go wrong.
  lemma NotNext<M>(h: Heap<M>, limit: nat, j: nat, k: nat)
    requires HeapSound(h, limit) && Threat(h, j, k) && !Wrong(h, Other(RunPosted))
    ensures k > 0
  {
    ListedKnown(h, limit, j);
    var i :| 0 <= i < |h.s.d.table| && h.s.d.table[i].mailbox == j && h.s.d.table[i].source == h.s.conns[j].source;
    assert Find(h.s.d.table, h.s.conns[j].source) == i;
  }

  lemma ThreatComesNearer<M>(h: Heap<M>, limit: nat, j: nat, k: nat)
    requires HeapSound(h, limit) && Ordered(h) && Threat(h, j, k) && !Wrong(h, Other(RunPosted))
    ensures k > 0 && Threat(After(h, limit, Other(RunPosted)), j, k - 1)
  {
    TaskShape(h, limit);
    NotNext(h, limit, j, k);
    assert !PostedFor(h.s.d.posted, 0, j);
    if Releases(h, Other(RunPosted)) {
      StaysListed(h, limit, j);
    }
  }

  lemma WrongNow<M>(h: Heap<M>, limit: nat, policy: Policy<M>)
    requires Wrong(h, Other(RunPosted))
    ensures IsHistory(h, limit, policy, [Other(RunPosted)] + []) && GoesWrong(h, limit, policy, [Other(RunPosted)] + [])
  {
    OneMore(h, limit, policy, Other(RunPosted), []);
  }

  lemma WrongLater<M>(h: Heap<M>, limit: nat, policy: Policy<M>, moves: seq<Move<M>>)
    requires Possible(h, limit, Other(RunPosted)) && IsHistory(After(h, limit, Other(RunPosted)), limit, policy, moves)
    requires GoesWrong(After(h, limit, Other(RunPosted)), limit, policy, moves)
    ensures IsHistory(h, limit, policy, [Other(RunPosted)] + moves)
    ensures GoesWrong(h, limit, policy, [Other(RunPosted)] + moves)
  {
    OneMore(h, limit, policy, Other(RunPosted), moves);
  }

  // Running the posted tasks gets to it.
  lemma {:induction false} ThreatComesTrue<M>(h: Heap<M>, limit: nat, policy: Policy<M>, j: nat, k: nat)
    returns (moves: seq<Move<M>>)
    requires HeapSound(h, limit) && Ordered(h) && limit > 0 && Threat(h, j, k)
    ensures IsHistory(h, limit, policy, moves) && GoesWrong(h, limit, policy, moves)
    decreases k
  {
    if Wrong(h, Other(RunPosted)) {
      WrongNow(h, limit, policy);
      moves := [Other(RunPosted)] + [];
    } else {
      ThreatComesNearer(h, limit, j, k);
      MoveKeepsSound(h, limit, Other(RunPosted));
      MoveKeepsOrdered(h, limit, Other(RunPosted));
      moves := ThreatComesTrue(After(h, limit, Other(RunPosted)), limit, policy, j, k - 1);
      WrongLater(h, limit, policy, moves);
      moves := [Other(RunPosted)] + moves;
    }
  }

  lemma OneMore<M>(h: Heap<M>, limit: nat, policy: Policy<M>, move: Move<M>, moves: seq<Move<M>>)
    requires Possible(h, limit, move) && IsHistory(After(h, limit, move), limit, policy, moves)
    requires move.Datagram? && Admits(h.s.d, move.source) ==> policy(h, move.source, move.address)
    ensures IsHistory(h, limit, policy, [move] + moves)
    ensures GoesWrong(h, limit, policy, [move] + moves)
            <==> Wrong(h, move) || GoesWrong(After(h, limit, move), limit, policy, moves)
    ensures HasReuse(h, limit, policy, [move] + moves)
            <==> Reuses(h, move) || HasReuse(After(h, limit, move), limit, policy, moves)
  {
    assert ([move] + moves)[1..] == moves;
  }

  lemma {:induction false} ReuseGoesWrong<M>(h: Heap<M>, limit: nat, policy: Policy<M>, moves: seq<Move<M>>)
    returns (worse: seq<Move<M>>)
    requires HeapSound(h, limit) && Ordered(h) && limit > 0
    requires IsHistory(h, limit, policy, moves) && HasReuse(h, limit, policy, moves)
    ensures IsHistory(h, limit, policy, worse) && GoesWrong(h, limit, policy, worse)
    decreases |moves|
  {
    var t := After(h, limit, moves[0]);
    MoveKeepsSound(h, limit, moves[0]);
    MoveKeepsOrdered(h, limit, moves[0]);
    if Reuses(h, moves[0]) {
      var k := ReuseThreatens(h, limit, moves[0]);
      worse := ThreatComesTrue(t, limit, policy, moves[0].id, k);
    } else {
      worse := ReuseGoesWrong(t, limit, policy, moves[1..]);
    }
    OneMore(h, limit, policy, moves[0], worse);
    worse := [moves[0]] + worse;
  }

  lemma SoundAtStart<M>(limit: nat)
    ensures HeapSound(Begun<M>(), limit) && Ordered(Begun<M>()) && !Endangered(Begun<M>())
  {
    CoreAtStart<M>(limit, 0);
  }

  // No release ever ends another Connection.
  ghost predicate Safe<M(!new)>(limit: nat, policy: Policy<M>) {
    forall moves :: IsHistory(Begun(), limit, policy, moves) ==> !GoesWrong(Begun(), limit, policy, moves)
  }

  // No Mailbox is ever put where one of the same source was whose release is still posted.
  ghost predicate Careful<M(!new)>(limit: nat, policy: Policy<M>) {
    forall moves :: IsHistory(Begun(), limit, policy, moves) ==> !HasReuse(Begun(), limit, policy, moves)
  }

  /** For every way of placing new Mailboxes, over all histories from a successful listen():
      the addresses serve as identities if and only if none is reused for a source while that
      source's release for it is still posted. */
  lemma SafeIff<M(!new)>(limit: nat, policy: Policy<M>)
    requires limit > 0
    ensures Safe(limit, policy) <==> Careful(limit, policy)
  {
    SoundAtStart<M>(limit);
    forall moves | IsHistory(Begun(), limit, policy, moves)
      ensures Safe(limit, policy) ==> !HasReuse(Begun(), limit, policy, moves)
      ensures Careful(limit, policy) ==> !GoesWrong(Begun(), limit, policy, moves)
    {
      if HasReuse(Begun(), limit, policy, moves) {
        var worse := ReuseGoesWrong(Begun(), limit, policy, moves);
        assert !Safe(limit, policy);
      } else {
        NoReuseNoWrong(Begun(), limit, policy, moves);
      }
    }
  }

  // A history that goes wrong by a reuse.
  ghost predicate Accident<M>(h: Heap<M>, limit: nat, policy: Policy<M>, moves: seq<Move<M>>) {
    IsHistory(h, limit, policy, moves) && GoesWrong(h, limit, policy, moves) && HasReuse(h, limit, policy, moves)
  }

  function Anywhere<M>(): Policy<M> {
    (h: Heap<M>, source: Endpoint, address: nat) => true
  }

  lemma AccidentLater<M>(h: Heap<M>, limit: nat, move: Move<M>, moves: seq<Move<M>>)
    requires Possible(h, limit, move) && Accident(After(h, limit, move), limit, Anywhere(), moves)
    ensures Accident(h, limit, Anywhere(), [move] + moves)
  {
    OneMore(h, limit, Anywhere(), move, moves);
  }

  // A source whose Connection has been accepted.
  ghost predicate OneAccepted<M>(h: Heap<M>, source: Endpoint) {
    && h.s.d.table == [Entry(source, 7, 0)] && h.s.d.posted == [] && h.s.d.accepting && h.s.d.queue == []
    && h.s.d.sweep.Waiting? && h.s.d.boxes.Keys == {7} && h.s.conns == map[7 := Conn(source, false)]
    && h.at == map[7 := 5] && h.gone == {} && h.s.now == 0
  }

  // It has been destroyed and its Mailbox freed before its release runs.
  ghost predicate OneFreed<M>(h: Heap<M>, source: Endpoint) {
    && h.s.d.table == [] && h.s.d.posted == [ReleaseTask(source, 7)] && h.s.d.accepting && h.s.d.queue == []
    && h.s.d.boxes.Keys == {7} && h.at == map[7 := 5] && h.gone == {7} && h.s.now == 0
  }

  // The next datagram of the source puts a new Mailbox there, and the release ends it,
  // although its own Connection has not been released.
  lemma FreedGoesWrong<M>(h: Heap<M>, source: Endpoint, m: M)
    requires OneFreed(h, source)
    ensures Accident(h, 10, Anywhere(), [Datagram(source, 31, m, 9, 5)] + ([Other(RunPosted)] + []))
    ensures Possible(h, 10, Datagram(source, 31, m, 9, 5)) &&
            var t := After(h, 10, Datagram(source, 31, m, 9, 5));
            Possible(t, 10, Other(RunPosted)) &&
            var u := After(t, 10, Other(RunPosted));
            && 9 in u.s.conns && !u.s.conns[9].released
            && 9 in u.s.d.boxes && u.s.d.boxes[9].closed && u.s.d.boxes[9].cause == Owner
  {
    var move := Datagram(source, 31, m, 9, 5);
    var t := After(h, 10, move);
    assert h.s.d.posted[0] == ReleaseTask(source, 7);
    assert t.s.d.table == [Entry(source, 9, 31)] && t.s.d.posted == [ReleaseTask(source, 7)];
    WrongNow(t, 10, Anywhere());
    OneMore(h, 10, Anywhere(), move, [Other(RunPosted)] + []);
  }

  lemma SweepFrees<M>(h: Heap<M>, source: Endpoint)
    requires OneAccepted(h, source)
    ensures Possible(h, 10, Other(TimerExpires)) &&
            var h1 := After(h, 10, Other(TimerExpires));
            Possible(h1, 10, Destroy(7)) &&
            var h2 := After(h1, 10, Destroy(7));
            Possible(h2, 10, Other(SweepRound(31))) && OneFreed(After(h2, 10, Other(SweepRound(31))), source)
  {
    var h2 := After(After(h, 10, Other(TimerExpires)), 10, Destroy(7));
    assert h2.s.d.table == [Entry(source, 7, 0)] && h2.s.d.posted == [ReleaseTask(source, 7)];
    assert EvictLast(h2.s.d, Idle).table == [] && EvictIdle(h2.s.d, 31) == EvictLast(h2.s.d, Idle);
  }

  lemma AcceptedGoesWrong<M>(h: Heap<M>, source: Endpoint, moves: seq<Move<M>>)
    requires OneAccepted(h, source)
    requires forall t: Heap<M> :: OneFreed(t, source) ==> Accident(t, 10, Anywhere(), moves)
    ensures Accident(h, 10, Anywhere(), [Other(TimerExpires)] + ([Destroy(7)] + ([Other(SweepRound(31))] + moves)))
  {
    var h1 := After(h, 10, Other(TimerExpires));
    SweepFrees(h, source);
    var h2 := After(h1, 10, Destroy(7));
    AccidentLater(h2, 10, Other(SweepRound(31)), moves);
    AccidentLater(h1, 10, Destroy(7), [Other(SweepRound(31))] + moves);
    AccidentLater(h, 10, Other(TimerExpires), [Destroy(7)] + ([Other(SweepRound(31))] + moves));
  }

  lemma FirstAccepted<M>(source: Endpoint, m: M)
    ensures Possible(Begun<M>(), 10, Datagram(source, 0, m, 7, 5)) &&
            var h1 := After(Begun<M>(), 10, Datagram(source, 0, m, 7, 5));
            Possible(h1, 10, Other(PostAccept)) &&
            var h2 := After(h1, 10, Other(PostAccept));
            Possible(h2, 10, Other(RunPosted)) && OneAccepted(After(h2, 10, Other(RunPosted)), source)
  {
    var h1 := After(Begun<M>(), 10, Datagram(source, 0, m, 7, 5));
    assert h1.s.d.table == [Entry(source, 7, 0)] && h1.s.d.queue == [7];
    assert After(h1, 10, Other(PostAccept)).s.d.posted == [AcceptTask];
  }

  /** And this happens when nothing forbids it. */
  lemma ReuseHappens<M>(source: Endpoint, m: M)
    ensures Accident(Begun<M>(), 10, Anywhere<M>(),
                     [Datagram(source, 0, m, 7, 5)] + ([Other(PostAccept)] + ([Other(RunPosted)]
                     + ([Other(TimerExpires)] + ([Destroy(7)] + ([Other(SweepRound(31))]
                     + ([Datagram(source, 31, m, 9, 5)] + ([Other(RunPosted)] + []))))))))
  {
    FirstAccepted(source, m);
    var h1 := After(Begun<M>(), 10, Datagram(source, 0, m, 7, 5));
    var h2 := After(h1, 10, Other(PostAccept));
    var reuse: seq<Move<M>> := [Datagram(source, 31, m, 9, 5)] + ([Other(RunPosted)] + []);
    forall t: Heap<M> | OneFreed(t, source)
      ensures Accident(t, 10, Anywhere(), reuse)
    {
      FreedGoesWrong(t, source, m);
    }
    var freed: seq<Move<M>> := [Other(TimerExpires)] + ([Destroy(7)] + ([Other(SweepRound(31))] + reuse));
    AcceptedGoesWrong(After(h2, 10, Other(RunPosted)), source, reuse);
    AccidentLater(h2, 10, Other(RunPosted), freed);
    AccidentLater(h1, 10, Other(PostAccept), [Other(RunPosted)] + freed);
    AccidentLater(Begun<M>(), 10, Datagram(source, 0, m, 7, 5), [Other(PostAccept)] + ([Other(RunPosted)] + freed));
  }
}
