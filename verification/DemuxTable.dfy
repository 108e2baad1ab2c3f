/** What holds of the demultiplexer's table around every step on the strand. */
module DemuxTable {
  import opened Mailboxes
  import opened Demux

  // One entry per source and per Mailbox.
  predicate Distinct(table: seq<Entry>) {
    forall i, j :: 0 <= i < j < |table| ==> table[i].source != table[j].source && table[i].mailbox != table[j].mailbox
  }

  // Most recently active first.
  predicate Recent(table: seq<Entry>) {
    forall i, j :: 0 <= i < j < |table| ==> table[i].last >= table[j].last
  }

  predicate InTable(table: seq<Entry>, id: nat) {
    exists i :: 0 <= i < |table| && table[i].mailbox == id
  }

  // No entry was active after `now`.
  predicate UpTo(table: seq<Entry>, now: int) {
    forall i :: 0 <= i < |table| ==> table[i].last <= now
  }

  /** A Mailbox is open exactly while it is in the table. */
  predicate OpenIffListed<M>(d: Demux<M>) {
    && (forall i :: 0 <= i < |d.table| ==> d.table[i].mailbox in d.boxes)
    && (forall id :: id in d.boxes ==> Bounded(d.boxes[id]) && (d.boxes[id].closed <==> !InTable(d.table, id)))
  }

  predicate TableSound<M>(d: Demux<M>, limit: nat, now: int) {
    && Distinct(d.table) && Recent(d.table) && UpTo(d.table, now) && |d.table| <= limit
    && OpenIffListed(d)
  }

  /** The socket is closed exactly when no new source is accepted and none is left. */
  predicate SocketSound<M>(d: Demux<M>) {
    d.open <==> d.accepting || d.table != []
  }

  lemma WithoutListed(table: seq<Entry>, i: nat, id: nat)
    requires i < |table| && Distinct(table)
    ensures InTable(Without(table, i), id) <==> InTable(table, id) && id != table[i].mailbox
  {
    var rest := Without(table, i);
    if InTable(rest, id) {
      var j :| 0 <= j < |rest| && rest[j].mailbox == id;
      assert table[if j < i then j else j + 1] == rest[j];
    }
    if InTable(table, id) && id != table[i].mailbox {
      var j :| 0 <= j < |table| && table[j].mailbox == id;
      assert rest[if j < i then j else j - 1] == table[j];
    }
  }

  lemma SourceGone(table: seq<Entry>, i: nat)
    requires i < |table| && Distinct(table)
    ensures Find(Without(table, i), table[i].source) == |Without(table, i)|
  {
    var rest := Without(table, i);
    var j := Find(rest, table[i].source);
    forall k | 0 <= k < |rest|
      ensures rest[k].source != table[i].source
    {
      assert rest[k] == table[if k < i then k else k + 1];
    }
  }

  /** Evicting keeps the table sound; it closes that one Mailbox, with that cause. */
  lemma EvictSound<M>(d: Demux<M>, i: nat, cause: CloseCause, limit: nat, now: int)
    requires TableSound(d, limit, now) && i < |d.table|
    ensures TableSound(Evict(d, i, cause), limit, now)
    ensures forall id :: id in d.boxes && id != d.table[i].mailbox ==> Evict(d, i, cause).boxes[id] == d.boxes[id]
    ensures var id := d.table[i].mailbox;
            var box := Evict(d, i, cause).boxes[id]; box.closed && box.cause == cause && box == Close(d.boxes[id], cause)
  {
    var e := Evict(d, i, cause);
    forall id | id in e.boxes
      ensures Bounded(e.boxes[id]) && (e.boxes[id].closed <==> !InTable(e.table, id))
    {
      WithoutListed(d.table, i, id);
    }
    assert InTable(d.table, d.table[i].mailbox);
  }

  lemma TouchListed(table: seq<Entry>, i: nat, now: int, id: nat)
    requires i < |table| && Distinct(table)
    ensures InTable([table[i].(last := now)] + Without(table, i), id) <==> InTable(table, id)
  {
    var next := [table[i].(last := now)] + Without(table, i);
    WithoutListed(table, i, id);
    assert next[0].mailbox == table[i].mailbox;
    assert forall j :: 0 <= j < |Without(table, i)| ==> next[j + 1] == Without(table, i)[j];
  }

  lemma TouchShape(table: seq<Entry>, i: nat, now: int, before: int)
    requires Distinct(table) && Recent(table) && UpTo(table, before) && i < |table| && before <= now
    ensures var next := [table[i].(last := now)] + Without(table, i);
            Distinct(next) && Recent(next) && UpTo(next, now)
  {
    var rest := Without(table, i);
    assert forall j :: 0 <= j < |rest| ==> rest[j] == table[if j < i then j else j + 1];
  }

  lemma TouchSound<M>(d: Demux<M>, i: nat, now: int, m: M, limit: nat, before: int)
    requires TableSound(d, limit, before) && i < |d.table| && before <= now
    ensures TableSound(Touch(d, i, now, m), limit, now)
  {
    var e := Touch(d, i, now, m);
    TouchShape(d.table, i, now, before);
    forall id
      ensures InTable(e.table, id) <==> InTable(d.table, id)
    {
      TouchListed(d.table, i, now, id);
    }
  }

  lemma PushedListed(table: seq<Entry>, e: Entry, id: nat)
    ensures InTable([e] + table, id) <==> id == e.mailbox || InTable(table, id)
  {
    var next := [e] + table;
    assert next[0] == e;
    assert forall j :: 0 <= j < |table| ==> next[j + 1] == table[j];
  }

  lemma MakeRoomShape<M>(d: Demux<M>, limit: nat)
    requires |d.table| <= limit && limit > 0 && forall i :: 0 <= i < |d.table| ==> d.table[i].mailbox in d.boxes
    ensures var r, n := MakeRoom(d, limit), if |d.table| == limit then limit - 1 else |d.table|;
            && r.table == d.table[..n] && |r.table| == n
            && forall id :: id in d.boxes <==> id in r.boxes
  {
    if |d.table| == limit {
      assert d.table[limit - 1].mailbox in d.boxes;
      assert Without(d.table, limit - 1) == d.table[..limit - 1];
    }
  }

  lemma MakeRoomSound<M>(d: Demux<M>, limit: nat, now: int)
    requires TableSound(d, limit, now) && limit > 0
    ensures TableSound(MakeRoom(d, limit), limit, now) && |MakeRoom(d, limit).table| < limit
    ensures forall id :: id in d.boxes <==> id in MakeRoom(d, limit).boxes
    ensures MakeRoom(d, limit).table == d.table[..|MakeRoom(d, limit).table|]
  {
    RoomIsSound(d, limit, now);
    MakeRoomShape(d, limit);
  }

  lemma RoomIsSound<M>(d: Demux<M>, limit: nat, now: int)
    requires TableSound(d, limit, now) && limit > 0
    ensures TableSound(MakeRoom(d, limit), limit, now)
  {
    if |d.table| == limit {
      EvictSound(d, limit - 1, Displaced, limit, now);
    }
  }

  lemma PushedSound<M>(d: Demux<M>, limit: nat, source: Endpoint, now: int, id: nat, before: int)
    requires TableSound(d, limit, before) && |d.table| < limit && before <= now && id !in d.boxes
    requires forall i :: 0 <= i < |d.table| ==> d.table[i].source != source
    ensures TableSound(Pushed(d, source, now, id), limit, now)
  {
    var e := Pushed(d, source, now, id);
    forall k | k in e.boxes
      ensures Bounded(e.boxes[k]) && (e.boxes[k].closed <==> !InTable(e.table, k))
    {
      PushedListed(d.table, Entry(source, id, now), k);
      assert !InTable(d.table, id);
    }
    PushedShape(d.table, Entry(source, id, now), before);
  }

  lemma PushedShape(table: seq<Entry>, e: Entry, before: int)
    requires Distinct(table) && Recent(table) && UpTo(table, before) && before <= e.last
    requires forall i :: 0 <= i < |table| ==> table[i].source != e.source && table[i].mailbox != e.mailbox
    ensures Distinct([e] + table) && Recent([e] + table) && UpTo([e] + table, e.last)
  {
  }

  lemma DeliveredSound<M>(d: Demux<M>, limit: nat, now: int, id: nat, m: M)
    requires TableSound(d, limit, now) && id in d.boxes
    ensures TableSound(d.(boxes := Delivering(d.boxes, id, m)), limit, now)
  {
  }

  lemma AdmitSound<M>(d: Demux<M>, limit: nat, source: Endpoint, now: int, m: M, id: nat, before: int)
    requires TableSound(d, limit, before) && limit > 0 && before <= now
    requires Find(d.table, source) == |d.table| && id !in d.boxes
    ensures TableSound(Admit(d, limit, source, now, m, id), limit, now)
  {
    MakeRoomSound(d, limit, before);
    var r := MakeRoom(d, limit);
    PushedSound(r, limit, source, now, id, before);
    DeliveredSound(Pushed(r, source, now, id), limit, now, id, m);
  }

  /** Every datagram keeps the table sound. */
  lemma ArrivalSound<M>(d: Demux<M>, limit: nat, source: Endpoint, now: int, m: M, id: nat, before: int)
    requires TableSound(d, limit, before) && limit > 0 && before <= now && id !in d.boxes
    ensures TableSound(OnDatagram(d, limit, source, now, m, id), limit, now)
    ensures SocketSound(d) ==> SocketSound(OnDatagram(d, limit, source, now, m, id))
  {
    var i := Find(d.table, source);
    if i < |d.table| {
      TouchSound(d, i, now, m, limit, before);
    } else if d.accepting {
      AdmitSound(d, limit, source, now, m, id, before);
    }
  }

  // ---- Displacement and the idle sweep ----

  /** A full table makes room by giving up the least recently active source, and no other. */
  lemma DisplacesLeastRecent<M>(d: Demux<M>, limit: nat, now: int)
    requires TableSound(d, limit, now) && limit > 0 && |d.table| == limit
    ensures var victim := d.table[limit - 1];
            && (forall i :: 0 <= i < limit ==> victim.last <= d.table[i].last)
            && MakeRoom(d, limit).table == d.table[..limit - 1]
            && MakeRoom(d, limit).boxes[victim.mailbox].closed
            && MakeRoom(d, limit).boxes[victim.mailbox].cause == Displaced
            && forall id :: id in d.boxes && id != victim.mailbox ==> MakeRoom(d, limit).boxes[id] == d.boxes[id]
  {
    EvictSound(d, limit - 1, Displaced, limit, now);
    assert Without(d.table, limit - 1) == d.table[..limit - 1];
  }

  // The entries that were active at or after the cutoff.
  function Kept(table: seq<Entry>, cutoff: int): seq<Entry> {
    if table == [] then [] else (if table[0].last >= cutoff then [table[0]] else []) + Kept(table[1..], cutoff)
  }

  lemma {:induction false} KeptWithoutLast(table: seq<Entry>, cutoff: int)
    requires table != [] && table[|table| - 1].last < cutoff
    ensures Kept(table, cutoff) == Kept(table[..|table| - 1], cutoff)
  {
    if |table| > 1 {
      KeptWithoutLast(table[1..], cutoff);
      assert table[1..][..|table| - 2] == table[..|table| - 1][1..];
    }
  }

  lemma {:induction false} KeptWhenRecent(table: seq<Entry>, cutoff: int)
    requires Recent(table) && (table == [] || table[|table| - 1].last >= cutoff)
    ensures Kept(table, cutoff) == table
  {
    if table != [] {
      KeptWhenRecent(table[1..], cutoff);
    }
  }

  // One round of the loop.
  lemma LastEvicted<M>(d: Demux<M>, cutoff: int, limit: nat, now: int)
    requires TableSound(d, limit, now) && d.table != [] && d.table[|d.table| - 1].last < cutoff
    ensures var c := EvictLast(d, Idle);
            && EvictIdle(d, cutoff) == EvictIdle(c, cutoff)
            && TableSound(c, limit, now) && |c.table| == |d.table| - 1
            && c.table == d.table[..|d.table| - 1] && Kept(c.table, cutoff) == Kept(d.table, cutoff)
            && c == d.(table := c.table, boxes := c.boxes)
            && c.boxes.Keys == d.boxes.Keys
  {
    EvictSound(d, |d.table| - 1, Idle, limit, now);
    KeptWithoutLast(d.table, cutoff);
    SameMailboxes(d);
  }

  // Evicting makes no Mailbox and forgets none.
  lemma SameMailboxes<M>(d: Demux<M>)
    requires OpenIffListed(d) && d.table != []
    ensures EvictLast(d, Idle).boxes.Keys == d.boxes.Keys
    ensures EvictLast(d, Idle).table == d.table[..|d.table| - 1]
  {
    assert d.table[|d.table| - 1].mailbox in d.boxes;
  }

  /** Sweeping from the back until an entry is recent enough removes exactly the entries
      older than the cutoff. */
  lemma {:induction false} SweepIsFilter<M>(d: Demux<M>, cutoff: int, limit: nat, now: int)
    requires TableSound(d, limit, now)
    ensures var e := EvictIdle(d, cutoff);
            && TableSound(e, limit, now)
            && e.table == Kept(d.table, cutoff)
            && e == d.(table := e.table, boxes := e.boxes)
    decreases |d.table|
  {
    if d.table != [] && d.table[|d.table| - 1].last < cutoff {
      LastEvicted(d, cutoff, limit, now);
      SweepIsFilter(EvictLast(d, Idle), cutoff, limit, now);
    } else {
      KeptWhenRecent(d.table, cutoff);
    }
  }

  // An entry that was last active before the cutoff has the Mailbox.
  predicate IdleIn(table: seq<Entry>, id: nat, cutoff: int) {
    exists i :: 0 <= i < |table| && table[i].mailbox == id && table[i].last < cutoff
  }

  lemma IdleInRest(table: seq<Entry>, id: nat, cutoff: int)
    requires table != []
    ensures var n := |table| - 1;
            IdleIn(table, id, cutoff)
            <==> IdleIn(table[..n], id, cutoff) || (table[n].mailbox == id && table[n].last < cutoff)
  {
    var n := |table| - 1;
    assert forall i :: 0 <= i < n ==> table[..n][i] == table[i];
  }

  lemma EvictedLast<M>(d: Demux<M>, limit: nat, now: int, id: nat)
    requires TableSound(d, limit, now) && d.table != [] && id in d.boxes
    ensures var c := EvictLast(d, Idle);
            && id in c.boxes
            && (if id == d.table[|d.table| - 1].mailbox then
                  c.boxes[id].closed && c.boxes[id].cause == Idle && c.boxes[id] == Close(d.boxes[id], Idle)
                else c.boxes[id] == d.boxes[id])
  {
    EvictSound(d, |d.table| - 1, Idle, limit, now);
  }

  lemma NoneIdle(table: seq<Entry>, id: nat, cutoff: int)
    requires Recent(table) && (table == [] || table[|table| - 1].last >= cutoff)
    ensures !IdleIn(table, id, cutoff)
  {
  }

  // What a sweep of `table` makes of a Mailbox.
  ghost predicate Swept<M>(table: seq<Entry>, cutoff: int, id: nat, before: Box<M>, after: Box<M>) {
    if IdleIn(table, id, cutoff) then after.closed && after.cause == Idle && after == Close(before, Idle)
    else after == before
  }

  /** It closes exactly the Mailboxes of those entries, as idle, and touches no other. */
  lemma {:induction false} SweepClosesIdle<M>(d: Demux<M>, cutoff: int, limit: nat, now: int, id: nat)
    requires TableSound(d, limit, now) && id in d.boxes
    ensures id in EvictIdle(d, cutoff).boxes
    ensures Swept(d.table, cutoff, id, d.boxes[id], EvictIdle(d, cutoff).boxes[id])
    decreases |d.table|
  {
    if d.table != [] && d.table[|d.table| - 1].last < cutoff {
      var c := EvictLast(d, Idle);
      LastEvicted(d, cutoff, limit, now);
      EvictedLast(d, limit, now, id);
      IdleInRest(d.table, id, cutoff);
      if id == d.table[|d.table| - 1].mailbox {
        ClosedUntouched(c, cutoff, limit, now, id);
      } else {
        SweepClosesIdle(c, cutoff, limit, now, id);
      }
    } else {
      NoneIdle(d.table, id, cutoff);
    }
  }

  // What has left the table is not touched by the rest of the sweep.
  lemma {:induction false} ClosedUntouched<M>(d: Demux<M>, cutoff: int, limit: nat, now: int, id: nat)
    requires TableSound(d, limit, now) && id in d.boxes && d.boxes[id].closed
    ensures id in EvictIdle(d, cutoff).boxes && EvictIdle(d, cutoff).boxes[id] == d.boxes[id]
    decreases |d.table|
  {
    if d.table != [] && d.table[|d.table| - 1].last < cutoff {
      EvictSound(d, |d.table| - 1, Idle, limit, now);
      assert InTable(d.table, d.table[|d.table| - 1].mailbox);
      ClosedUntouched(EvictLast(d, Idle), cutoff, limit, now, id);
    }
  }

  // ---- Tasks ----

  lemma ShutDownSound<M>(d: Demux<M>, limit: nat, now: int)
    requires TableSound(d, limit, now) && (d.accepting || d.table != [] ==> d.open)
    ensures TableSound(ShutDownIfUnused(d), limit, now) && SocketSound(ShutDownIfUnused(d))
  {
  }

  lemma SweepSound<M>(d: Demux<M>, cutoff: int, limit: nat, now: int)
    requires TableSound(d, limit, now) && SocketSound(d)
    ensures TableSound(Sweep(d, cutoff), limit, now) && SocketSound(Sweep(d, cutoff))
  {
    SweepIsFilter(d, cutoff, limit, now);
    if d.table == [] {
      assert EvictIdle(d, cutoff).table == [];
    }
    ShutDownSound(EvictIdle(d, cutoff), limit, now);
  }

  lemma TaskSound<M>(d: Demux<M>, limit: nat, now: int)
    requires TableSound(d, limit, now) && SocketSound(d) && d.posted != []
    ensures TableSound(RunTask(d), limit, now) && SocketSound(RunTask(d))
  {
    var rest := d.(posted := d.posted[1..]);
    match d.posted[0] {
      case StopTask => ShutDownSound(rest.(accepting := false, waiters := 0), limit, now);
      case AcceptTask =>
      case ReleaseTask(source, mailbox) =>
        var i := Find(rest.table, source);
        if i < |rest.table| && rest.table[i].mailbox == mailbox {
          EvictSound(rest, i, Owner, limit, now);
          ShutDownSound(Evict(rest, i, Owner), limit, now);
        } else {
          ShutDownSound(rest, limit, now);
        }
    }
  }
}
