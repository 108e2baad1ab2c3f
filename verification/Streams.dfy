/** A TCP Connection receiving a byte stream that ends: how the stream may reach it, and what
    it is for successive receives to return the results the stream has. */
module Streams {
  import opened Bytes
  import opened Framing
  import opened Receive
  import opened TapsApi

  // How a stream can end.
  predicate Ending(e: Event) {
    e.Eof? || e.Truncated? || (e.Failed? && e.reason != LOCAL_ABORT)
  }

  // Reads of at least a byte each and failed attempts for lack of a block, then the end.
  predicate Delivers(ev: seq<Event>, ending: Event) {
    ev != [] &&
    if |ev| == 1 then ev[0] == ending
    else (ev[0] == Exhausted || (ev[0].Chunk? && ev[0].bytes != [])) && Delivers(ev[1..], ending)
  }

  function Exhaustions(ev: seq<Event>): nat {
    if ev == [] then 0 else (if ev[0] == Exhausted then 1 else 0) + Exhaustions(ev[1..])
  }

  lemma {:induction false} NoExhaustions(ev: seq<Event>)
    requires Exhausted !in ev
    ensures Exhaustions(ev) == 0
  {
    if ev != [] {
      NoExhaustions(ev[1..]);
    }
  }

  const NoBlock := Failure(RECEIVE_ERROR, RESOURCE_EXHAUSTED)

  const Deframing := Failure(RECEIVE_ERROR, DEFRAMING_FAILED)

  // A Connection receiving a stream whose unread part is ev.
  predicate Receiving(s: Conn, ev: seq<Event>, ending: Event) {
    && CanReceive(s)
    && (if s.eof then ev == [] && ending == Eof else Delivers(ev, ending))
  }

  // ---- Successive calls ----

  // The results that are not a failure for lack of a block.
  function Results(outcomes: seq<Outcome>): seq<Outcome> {
    if outcomes == [] then []
    else (if outcomes[0] == NoBlock then [] else [outcomes[0]]) + Results(outcomes[1..])
  }

  // The results are what is owed, and refusals once that is used up.
  predicate Answers(got: seq<Outcome>, owed: seq<Outcome>) {
    forall i :: 0 <= i < |got| ==> got[i] == if i < |owed| then owed[i] else Failure(RECEIVE_ERROR, INVALID_STATE)
  }

  /** A Connection that can receive no more refuses every call and stays as it is. */
  lemma {:induction false} RefusedForever(mode: Option<Framer>, s: Conn, ev: seq<Event>, n: nat)
    requires UsableIn(mode) && !CanReceive(s)
    ensures var run := Receives(mode, s, ev, n);
            && |Results(run.outcomes)| == n && Answers(Results(run.outcomes), []) && run.conn == s
    decreases n
  {
    if n > 0 {
      RefusedForever(mode, s, ev, n - 1);
      var tail := Receives(mode, s, ev, n - 1).outcomes;
      assert ([Refused] + tail)[1..] == tail;
    }
  }

  // What n calls are to return, and whether the Connection can then still receive.
  predicate Fulfils(run: Run, owed: seq<Outcome>, n: nat, exhaustions: nat) {
    var got := Results(run.outcomes);
    && Answers(got, owed)
    && |got| <= n <= |got| + exhaustions
    && (CanReceive(run.conn) <==> |got| < |owed|)
  }

  // One call returns the next result that is owed, or fails for lack of a block.
  predicate Gives(step: Step, ev: seq<Event>, owed: seq<Outcome>)
    requires owed != []
  {
    if step.outcome == NoBlock then Exhaustions(step.rest) + 1 == Exhaustions(ev)
    else step.outcome == owed[0] && Exhaustions(step.rest) == Exhaustions(ev)
  }

  // The next n calls go through what is owed one by one.
  predicate Proceeds(mode: Option<Framer>, s: Conn, ev: seq<Event>, owed: seq<Outcome>, n: nat)
    requires UsableIn(mode)
    decreases n
  {
    (CanReceive(s) <==> owed != []) &&
    (n > 0 && owed != [] ==>
       var step := ReceiveIn(mode, s, ev);
       && Gives(step, ev, owed)
       && Proceeds(mode, step.conn, step.rest, if step.outcome == NoBlock then owed else owed[1..], n - 1))
  }

  lemma {:induction false} ProceedingFulfils(mode: Option<Framer>, s: Conn, ev: seq<Event>, owed: seq<Outcome>, n: nat)
    requires UsableIn(mode) && Proceeds(mode, s, ev, owed, n)
    ensures Fulfils(Receives(mode, s, ev, n), owed, n, Exhaustions(ev))
    decreases n
  {
    if owed == [] {
      RefusedForever(mode, s, ev, n);
    } else if n > 0 {
      var step := ReceiveIn(mode, s, ev);
      var run, tail := Receives(mode, s, ev, n), Receives(mode, step.conn, step.rest, n - 1);
      if step.outcome == NoBlock {
        ProceedingFulfils(mode, step.conn, step.rest, owed, n - 1);
        FulfilsAfterNoBlock(run, tail, owed, n - 1, Exhaustions(step.rest));
      } else {
        ProceedingFulfils(mode, step.conn, step.rest, owed[1..], n - 1);
        FulfilsNext(run, tail, owed, n - 1, Exhaustions(step.rest));
      }
    }
  }

  lemma FulfilsAfterNoBlock(run: Run, tail: Run, owed: seq<Outcome>, n: nat, exhaustions: nat)
    requires run.outcomes == [NoBlock] + tail.outcomes && run.conn == tail.conn
    requires Fulfils(tail, owed, n, exhaustions)
    ensures Fulfils(run, owed, n + 1, exhaustions + 1)
  {
    assert run.outcomes[1..] == tail.outcomes;
  }

  lemma FulfilsNext(run: Run, tail: Run, owed: seq<Outcome>, n: nat, exhaustions: nat)
    requires owed != [] && owed[0] != NoBlock
    requires run.outcomes == [owed[0]] + tail.outcomes && run.conn == tail.conn
    requires Fulfils(tail, owed[1..], n, exhaustions)
    ensures Fulfils(run, owed, n + 1, exhaustions)
  {
    assert run.outcomes[1..] == tail.outcomes;
  }

  // Without the first call and its result.
  lemma FulfilsRest(run: Run, tail: Run, owed: seq<Outcome>, n: nat, exhaustions: nat)
    requires owed != [] && owed[0] != NoBlock
    requires run.outcomes == [owed[0]] + tail.outcomes && run.conn == tail.conn
    requires Fulfils(run, owed, n + 1, exhaustions)
    ensures Fulfils(tail, owed[1..], n, exhaustions)
  {
    assert run.outcomes[1..] == tail.outcomes;
    assert Results(run.outcomes) == [owed[0]] + Results(tail.outcomes);
    forall i | 0 <= i < |Results(tail.outcomes)|
      ensures Results(tail.outcomes)[i] == if i < |owed| - 1 then owed[1..][i] else Refused
    {
      assert Results(run.outcomes)[i + 1] == Results(tail.outcomes)[i];
    }
  }
}
