/** The counter of live blocks of a MessageBlockPool under concurrent use
    (src/buffer/message_block_pool.cpp): acquire() and the destruction of a block are several
    atomic steps each, which the steps of other threads come between. */
module PoolCounter {
  // Where a thread is in acquire() or in DataBlock::destroy().
  datatype Phase =
    | Idle
    | Reserved      // counted a block that it has yet to create
    | Refused       // counted a block although the cap was reached; has yet to undo that
    | Freeing       // uncounted a block whose memory it has yet to return

  // live: blocks that are created and not being destroyed.
  datatype State = State(counter: int, cap: nat, live: nat, threads: seq<Phase>)

  datatype Step =
    | Count(i: nat)       // fetch_add of acquire()
    | Create(i: nat)      // DataBlock::create
    | Undo(i: nat)        // fetch_sub of a refused acquire()
    | Uncount(i: nat)     // fetch_sub of destroy(), when the last reference goes
    | Free(i: nat)        // the deallocation

  predicate Enabled(s: State, step: Step) {
    step.i < |s.threads| &&
    match step
    case Count(i) => s.threads[i] == Idle
    case Create(i) => s.threads[i] == Reserved
    case Undo(i) => s.threads[i] == Refused
    case Uncount(i) => s.threads[i] == Idle && s.live > 0
    case Free(i) => s.threads[i] == Freeing
  }

  function Next(s: State, step: Step): State
    requires Enabled(s, step)
  {
    match step
    case Count(i) =>
      s.(counter := s.counter + 1, threads := s.threads[i := if s.counter >= s.cap then Refused else Reserved])
    case Create(i) => s.(live := s.live + 1, threads := s.threads[i := Idle])
    case Undo(i) => s.(counter := s.counter - 1, threads := s.threads[i := Idle])
    case Uncount(i) => s.(counter := s.counter - 1, live := s.live - 1, threads := s.threads[i := Freeing])
    case Free(i) => s.(threads := s.threads[i := Idle])
  }

  predicate IsRun(s: State, steps: seq<Step>)
    decreases |steps|
  {
    steps == [] || (Enabled(s, steps[0]) && IsRun(Next(s, steps[0]), steps[1..]))
  }

  function Final(s: State, steps: seq<Step>): State
    requires IsRun(s, steps)
    decreases |steps|
  {
    if steps == [] then s else Final(Next(s, steps[0]), steps[1..])
  }

  // A pool with a cap, shared by n threads.
  function Start(cap: nat, n: nat): State {
    State(0, cap, 0, seq(n, _ => Idle))
  }

  // How many threads are in a phase.
  function In(threads: seq<Phase>, p: Phase): nat {
    if threads == [] then 0 else (if threads[0] == p then 1 else 0) + In(threads[1..], p)
  }

  lemma {:induction false} InAfter(threads: seq<Phase>, i: nat, q: Phase, p: Phase)
    requires i < |threads|
    ensures In(threads[i := q], p) == In(threads, p) - (if threads[i] == p then 1 else 0) + (if q == p then 1 else 0)
  {
    if i == 0 {
      assert threads[0 := q][1..] == threads[1..];
    } else {
      assert threads[i := q][1..] == threads[1..][i - 1 := q];
      InAfter(threads[1..], i - 1, q, p);
    }
  }

  lemma {:induction false} InSome(threads: seq<Phase>, i: nat, p: Phase)
    requires i < |threads| && threads[i] == p
    ensures In(threads, p) > 0
  {
    if i > 0 {
      InSome(threads[1..], i - 1, p);
    }
  }

  lemma {:induction false} NoneAtStart(n: nat, p: Phase)
    ensures In(seq(n, _ => Idle), p) == if p == Idle then n else 0
  {
    if n > 0 {
      var threads := seq(n, _ => Idle);
      assert threads[1..] == seq(n - 1, _ => Idle);
      NoneAtStart(n - 1, p);
    }
  }

  /** The counter is the live blocks, the reserved ones and the counts a refused acquire()
      has yet to undo; and live and reserved blocks together never exceed the cap. */
  predicate Exact(s: State) {
    && s.counter == s.live + In(s.threads, Reserved) + In(s.threads, Refused)
    && s.live + In(s.threads, Reserved) <= s.cap
  }

  lemma {:induction false} StaysExact(s: State, steps: seq<Step>)
    requires Exact(s) && IsRun(s, steps)
    ensures Exact(Final(s, steps))
    decreases |steps|
  {
    if steps != [] {
      StepStaysExact(s, steps[0]);
      StaysExact(Next(s, steps[0]), steps[1..]);
    }
  }

  lemma StepStaysExact(s: State, step: Step)
    requires Exact(s) && Enabled(s, step)
    ensures Exact(Next(s, step))
  {
    var i := step.i;
    var q := Next(s, step).threads[i];
    InAfter(s.threads, i, q, Reserved);
    InAfter(s.threads, i, q, Refused);
    InSome(s.threads, i, s.threads[i]);
  }

  predicate Quiet(s: State) {
    In(s.threads, Reserved) == 0 && In(s.threads, Refused) == 0
  }

  /** In every interleaving of any number of threads the live blocks stay within the cap, and
      whenever no acquire() is under way the counter is their number exactly. */
  lemma CapHolds(cap: nat, n: nat, steps: seq<Step>)
    requires IsRun(Start(cap, n), steps)
    ensures var t := Final(Start(cap, n), steps);
            && t.cap == cap && t.live <= cap
            && (Quiet(t) ==> t.counter == t.live)
  {
    NoneAtStart(n, Reserved);
    NoneAtStart(n, Refused);
    StaysExact(Start(cap, n), steps);
    CapIsConstant(Start(cap, n), steps);
  }

  lemma {:induction false} CapIsConstant(s: State, steps: seq<Step>)
    requires IsRun(s, steps)
    ensures Final(s, steps).cap == s.cap
    decreases |steps|
  {
    if steps != [] {
      CapIsConstant(Next(s, steps[0]), steps[1..]);
    }
  }

  /** An acquire() is refused exactly when live and reserved blocks and refusals under way
      together reach the cap. Without refusals under way that is: when the cap is used up. */
  lemma RefusedIff(s: State, i: nat)
    requires Exact(s) && Enabled(s, Count(i))
    ensures Next(s, Count(i)).threads[i] == Refused
            <==> s.live + In(s.threads, Reserved) + In(s.threads, Refused) >= s.cap
    ensures In(s.threads, Refused) == 0 ==>
              (Next(s, Count(i)).threads[i] == Refused <==> s.live + In(s.threads, Reserved) == s.cap)
  {
  }

  // Blocks whose memory is allocated.
  function Allocated(s: State): nat {
    s.live + In(s.threads, Freeing)
  }

  // Every thread is returning the memory of a block.
  predicate AllFreeing(s: State) {
    s.threads != [] && forall i :: 0 <= i < |s.threads| ==> s.threads[i] == Freeing
  }

  // Then one block has just been uncounted.
  predicate Roomy(s: State) {
    Exact(s) && (AllFreeing(s) ==> s.live < s.cap)
  }

  lemma StepStaysRoomy(s: State, step: Step)
    requires Roomy(s) && Enabled(s, step)
    ensures Roomy(Next(s, step)) && |Next(s, step).threads| == |s.threads| && Next(s, step).cap == s.cap
  {
    StepStaysExact(s, step);
    if !step.Uncount? {
      assert Next(s, step).threads[step.i] != Freeing;
    }
  }

  lemma {:induction false} StaysRoomy(s: State, steps: seq<Step>)
    requires Roomy(s) && IsRun(s, steps)
    ensures Roomy(Final(s, steps)) && |Final(s, steps).threads| == |s.threads| && Final(s, steps).cap == s.cap
    decreases |steps|
  {
    if steps != [] {
      StepStaysRoomy(s, steps[0]);
      StaysRoomy(Next(s, steps[0]), steps[1..]);
    }
  }

  lemma {:induction false} InAll(threads: seq<Phase>, p: Phase)
    ensures In(threads, p) <= |threads|
    ensures In(threads, p) == |threads| ==> forall i :: 0 <= i < |threads| ==> threads[i] == p
  {
    if threads != [] {
      InAll(threads[1..], p);
    }
  }

  lemma AllocatedBelow(cap: nat, n: nat, steps: seq<Step>)
    requires cap > 0 && n > 0 && IsRun(Start(cap, n), steps)
    ensures Allocated(Final(Start(cap, n), steps)) <= cap + n - 1
  {
    NoneAtStart(n, Reserved);
    NoneAtStart(n, Refused);
    assert Start(cap, n).threads[0] == Idle;
    StaysRoomy(Start(cap, n), steps);
    InAll(Final(Start(cap, n), steps).threads, Freeing);
  }

  // `live` blocks, and threads 1 to `busy` returning the memory of others.
  function Crowd(cap: nat, n: nat, live: nat, busy: nat): State {
    State(live, cap, live, seq(n, i => if 1 <= i <= busy then Freeing else Idle))
  }

  lemma {:induction false} CrowdFrees(n: nat, busy: nat)
    requires busy < n
    ensures In(Crowd(0, n, 0, busy).threads, Freeing) == busy
    decreases busy
  {
    var threads := Crowd(0, n, 0, busy).threads;
    if busy == 0 {
      assert threads == seq(n, _ => Idle);
      NoneAtStart(n, Freeing);
    } else {
      var fewer := Crowd(0, n, 0, busy - 1).threads;
      CrowdFrees(n, busy - 1);
      assert threads == fewer[busy := Freeing];
      InAfter(fewer, busy, Freeing, Freeing);
    }
  }

  // A run leads from s to t.
  predicate Leads(s: State, steps: seq<Step>, t: State) {
    IsRun(s, steps) && Final(s, steps) == t
  }

  lemma {:induction false} LeadsOn(s: State, a: seq<Step>, t: State, b: seq<Step>, u: State)
    requires Leads(s, a, t) && Leads(t, b, u)
    ensures Leads(s, a + b, u)
    decreases |a|
  {
    if a == [] {
      assert a + b == b;
    } else {
      assert (a + b)[1..] == a[1..] + b;
      LeadsOn(Next(s, a[0]), a[1..], t, b, u);
    }
  }

  lemma LeadsOne(s: State, step: Step)
    requires Enabled(s, step)
    ensures Leads(s, [step], Next(s, step))
  {
    assert [step][1..] == [] && Final(Next(s, step), []) == Next(s, step);
  }

  // Thread 0 acquires a block.
  lemma Acquires(cap: nat, n: nat, live: nat, busy: nat)
    requires 0 < n && live < cap
    ensures Leads(Crowd(cap, n, live, busy), [Count(0), Create(0)], Crowd(cap, n, live + 1, busy))
  {
    var s := Crowd(cap, n, live, busy);
    var t := Next(s, Count(0));
    LeadsOne(s, Count(0));
    LeadsOne(t, Create(0));
    assert Next(t, Create(0)).threads == s.threads;
    LeadsOn(s, [Count(0)], t, [Create(0)], Next(t, Create(0)));
    assert [Count(0)] + [Create(0)] == [Count(0), Create(0)];
  }

  lemma {:induction false} Fills(cap: nat, n: nat, live: nat) returns (steps: seq<Step>)
    requires 0 < n && live <= cap
    ensures Leads(Crowd(cap, n, 0, 0), steps, Crowd(cap, n, live, 0))
    decreases live
  {
    if live == 0 {
      steps := [];
    } else {
      steps := Fills(cap, n, live - 1);
      Acquires(cap, n, live - 1, 0);
      LeadsOn(Crowd(cap, n, 0, 0), steps, Crowd(cap, n, live - 1, 0), [Count(0), Create(0)], Crowd(cap, n, live, 0));
      steps := steps + [Count(0), Create(0)];
    }
  }

  // One thread after the other uncounts a block, and thread 0 acquires another in its place.
  lemma {:induction false} Crowds(cap: nat, n: nat, busy: nat) returns (steps: seq<Step>)
    requires 0 < cap && busy < n
    ensures Leads(Crowd(cap, n, cap, 0), steps, Crowd(cap, n, cap, busy))
    decreases busy
  {
    if busy == 0 {
      steps := [];
    } else {
      var start, s, t := Crowd(cap, n, cap, 0), Crowd(cap, n, cap, busy - 1), Crowd(cap, n, cap - 1, busy);
      steps := Crowds(cap, n, busy - 1);
      LeadsOne(s, Uncount(busy));
      assert Next(s, Uncount(busy)).threads == t.threads;
      Acquires(cap, n, cap - 1, busy);
      LeadsOn(s, [Uncount(busy)], t, [Count(0), Create(0)], Crowd(cap, n, cap, busy));
      LeadsOn(start, steps, s, [Uncount(busy)] + [Count(0), Create(0)], Crowd(cap, n, cap, busy));
      steps := steps + ([Uncount(busy)] + [Count(0), Create(0)]);
    }
  }

  lemma AllocatedReached(cap: nat, n: nat) returns (steps: seq<Step>)
    requires cap > 0 && n > 0
    ensures IsRun(Start(cap, n), steps) && Allocated(Final(Start(cap, n), steps)) == cap + n - 1
  {
    var fill := Fills(cap, n, cap);
    var crowd := Crowds(cap, n, n - 1);
    assert Start(cap, n).threads == Crowd(cap, n, 0, 0).threads;
    LeadsOn(Start(cap, n), fill, Crowd(cap, n, cap, 0), crowd, Crowd(cap, n, cap, n - 1));
    CrowdFrees(n, n - 1);
    steps := fill + crowd;
  }

  ghost predicate NeverAbove(cap: nat, n: nat, bound: nat) {
    forall steps :: IsRun(Start(cap, n), steps) ==> Allocated(Final(Start(cap, n), steps)) <= bound
  }

  /** A block is uncounted before its memory is returned, so n threads can have the memory of
      n - 1 blocks beyond the cap, and never more: that is the least bound there is. */
  lemma LeastBound(cap: nat, n: nat, bound: nat)
    requires cap > 0 && n > 0
    ensures NeverAbove(cap, n, bound) <==> cap + n - 1 <= bound
  {
    if cap + n - 1 <= bound {
      forall steps | IsRun(Start(cap, n), steps)
        ensures Allocated(Final(Start(cap, n), steps)) <= bound
      {
        AllocatedBelow(cap, n, steps);
      }
    } else {
      var steps := AllocatedReached(cap, n);
      assert Allocated(Final(Start(cap, n), steps)) > bound;
    }
  }

  /** The memory in use stays within the cap, in every interleaving, if and only if a single
      thread uses the pool. */
  lemma WithinCapIff(cap: nat, n: nat)
    requires cap > 0 && n > 0
    ensures NeverAbove(cap, n, cap) <==> n == 1
  {
    LeastBound(cap, n, cap);
  }

  // ---- Refusals with blocks to spare ----

  // An acquire() would be refused although the live and the reserved blocks are fewer than
  // the cap.
  predicate Spurious(s: State, i: nat) {
    Enabled(s, Count(i)) && Next(s, Count(i)).threads[i] == Refused && s.live + In(s.threads, Reserved) < s.cap
  }

  ghost predicate RefusedOnlyAtCap(cap: nat, n: nat) {
    forall steps, i :: IsRun(Start(cap, n), steps) ==> !Spurious(Final(Start(cap, n), steps), i)
  }

  lemma AloneRefusedAtCap(cap: nat, steps: seq<Step>, i: nat)
    requires IsRun(Start(cap, 1), steps)
    ensures !Spurious(Final(Start(cap, 1), steps), i)
  {
    var t := Final(Start(cap, 1), steps);
    NoneAtStart(1, Reserved);
    NoneAtStart(1, Refused);
    StaysExact(Start(cap, 1), steps);
    ThreadsStay(Start(cap, 1), steps);
    if i == 0 && t.threads[0] == Idle {
      assert t.threads == [Idle] && [Idle][1..] == [];
    }
  }

  lemma {:induction false} ThreadsStay(s: State, steps: seq<Step>)
    requires IsRun(s, steps)
    ensures |Final(s, steps).threads| == |s.threads|
    decreases |steps|
  {
    if steps != [] {
      ThreadsStay(Next(s, steps[0]), steps[1..]);
    }
  }

  // Thread 0 is refused at the cap; thread 1 destroys a block and is refused, too.
  lemma SpuriousRun(cap: nat, n: nat) returns (steps: seq<Step>)
    requires cap > 0 && n > 1
    ensures IsRun(Start(cap, n), steps) && Spurious(Final(Start(cap, n), steps), 1)
  {
    var fill := Fills(cap, n, cap);
    var start, full := Crowd(cap, n, 0, 0), Crowd(cap, n, cap, 0);
    assert Start(cap, n).threads == start.threads;
    var s1 := Next(full, Count(0));
    var s2 := Next(s1, Uncount(1));
    var s3 := Next(s2, Free(1));
    LeadsOne(full, Count(0));
    LeadsOne(s1, Uncount(1));
    LeadsOne(s2, Free(1));
    LeadsOn(s1, [Uncount(1)], s2, [Free(1)], s3);
    LeadsOn(full, [Count(0)], s1, [Uncount(1)] + [Free(1)], s3);
    steps := [Count(0)] + ([Uncount(1)] + [Free(1)]);
    LeadsOn(start, fill, full, steps, s3);
    steps := fill + steps;
    NoneReserved(full, s1, s2, s3);
  }

  lemma NoneReserved(full: State, s1: State, s2: State, s3: State)
    requires |full.threads| > 1 && forall i :: 0 <= i < |full.threads| ==> full.threads[i] == Idle
    requires s1.threads == full.threads[0 := Refused] && s2.threads == s1.threads[1 := Freeing]
    requires s3.threads == s2.threads[1 := Idle]
    ensures In(s3.threads, Reserved) == 0
  {
    assert full.threads == seq(|full.threads|, _ => Idle);
    NoneAtStart(|full.threads|, Reserved);
    InAfter(full.threads, 0, Refused, Reserved);
    InAfter(s1.threads, 1, Freeing, Reserved);
    InAfter(s2.threads, 1, Idle, Reserved);
  }

  /** An acquire() is refused only when the live and the reserved blocks reach the cap, in
      every interleaving, if and only if a single thread uses the pool. */
  lemma RefusedOnlyAtCapIff(cap: nat, n: nat)
    requires cap > 0 && n > 0
    ensures RefusedOnlyAtCap(cap, n) <==> n == 1
  {
    if n == 1 {
      forall steps, i | IsRun(Start(cap, n), steps)
        ensures !Spurious(Final(Start(cap, n), steps), i)
      {
        AloneRefusedAtCap(cap, steps, i);
      }
    } else {
      var steps := SpuriousRun(cap, n);
      assert Spurious(Final(Start(cap, n), steps), 1);
    }
  }
}
