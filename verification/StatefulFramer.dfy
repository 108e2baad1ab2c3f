/** receive_framed() with a framer that keeps a state of its own between calls of parse(),
    as include/taps/message_framer.h allows: what holds whatever such a framer answers. */
module StatefulFramer {
  import opened Bytes
  import opened Framing
  import opened Receive

  // parse() in a state of the framer: the state after it, and the answer.
  type Parser<!S> = (S, seq<Byte>, bool) -> (S, ParseResult)

  // The loop of receive_framed(), and the framer's state after it.
  function Loop<S>(parse: Parser<S>, m: S, s: Conn, ev: seq<Event>): (Step, S)
    decreases |ev|, if s.eof then 0 else 1, 1
  {
    var (m, pr) := parse(m, s.buf, s.eof);
    match pr
    case Emit(discard, deliver, eom, _) => (EmitRecord(s, discard, deliver, eom, ev), m)
    case NeedMore(_) => if s.eof then (AtEnd(s, ev), m) else Wait(parse, m, s, ev)
  }

  // While its read is pending.
  function Wait<S>(parse: Parser<S>, m: S, s: Conn, ev: seq<Event>): (Step, S)
    decreases |ev|, if s.eof then 0 else 1, 0
  {
    if ev == [] then (Step(s, Pending, [], []), m)
    else if LocalCall(ev[0]) then Wait(parse, m, After(s, ev[0]), ev[1..])
    else if ReadFailed(ev[0]) then (ReadFails(s, ev[0], ev[1..]), m)
    else Loop(parse, m, After(s, ev[0]), ev[1..])
  }

  function Call<S>(parse: Parser<S>, m: S, s: Conn, ev: seq<Event>): (Step, S) {
    if !CanReceive(s) then (Step(s, Refused, [], ev), m) else Loop(parse, m, s, ev)
  }

  // n successive calls.
  function Calls<S>(parse: Parser<S>, m: S, s: Conn, ev: seq<Event>, n: nat): Run
    decreases n
  {
    if n == 0 then Run([], s, ev, [])
    else
      var (step, m) := Call(parse, m, s, ev);
      var run := Calls(parse, m, step.conn, step.rest, n - 1);
      Run([step.outcome] + run.outcomes, run.conn, run.rest, step.dropped + Body(step.outcome) + run.consumed)
  }

  // ---- A framer without a state ----

  function Stateless(f: Framer): Parser<()>
    requires Usable(f)
  {
    (m: (), buf: seq<Byte>, atEof: bool) requires Usable(f) => ((), Parse(f, buf, atEof))
  }

  /** For the framers of the library, which keep no state, the loop is the one of module
      Receive. */
  lemma {:induction false} LoopOfStateless(f: Framer, s: Conn, ev: seq<Event>)
    requires Usable(f)
    ensures Loop(Stateless(f), (), s, ev).0 == ReceiveLoop(f, s, ev)
    decreases |ev|, if s.eof then 0 else 1, 1
  {
    if Parse(f, s.buf, s.eof).NeedMore? && !s.eof {
      WaitOfStateless(f, s, ev);
    }
  }

  lemma {:induction false} WaitOfStateless(f: Framer, s: Conn, ev: seq<Event>)
    requires Usable(f) && Parse(f, s.buf, s.eof).NeedMore? && !s.eof
    ensures Wait(Stateless(f), (), s, ev).0 == ReceiveLoop(f, s, ev)
    decreases |ev|, if s.eof then 0 else 1, 0
  {
    if ev != [] {
      if LocalCall(ev[0]) {
        WaitOfStateless(f, After(s, ev[0]), ev[1..]);
      } else if Continues(ev[0]) {
        LoopOfStateless(f, After(s, ev[0]), ev[1..]);
      }
    }
  }

  lemma {:induction false} CallsOfStateless(f: Framer, s: Conn, ev: seq<Event>, n: nat)
    requires Usable(f)
    ensures Calls(Stateless(f), (), s, ev, n) == Receives(Some(f), s, ev, n)
    decreases n
  {
    if n > 0 {
      LoopOfStateless(f, s, ev);
      var step, m := ReceiveFramed(f, s, ev), Call(Stateless(f), (), s, ev).1;
      assert m == ();
      CallsOfStateless(f, step.conn, step.rest, n - 1);
    }
  }

  // ---- Conservation ----

  lemma {:induction false} LoopConserves<S>(parse: Parser<S>, m: S, s: Conn, ev: seq<Event>)
    ensures Conserves(s, ev, Loop(parse, m, s, ev).0)
    decreases |ev|, if s.eof then 0 else 1, 1
  {
    var (n, pr) := parse(m, s.buf, s.eof);
    match pr
    case Emit(discard, deliver, eom, _) => EmitConserves(s, discard, deliver, eom, ev);
    case NeedMore(_) =>
      if s.eof {
        AtEndConserves(s, ev);
      } else {
        WaitConserves(parse, n, s, ev);
      }
  }

  lemma {:induction false} WaitConserves<S>(parse: Parser<S>, m: S, s: Conn, ev: seq<Event>)
    ensures Conserves(s, ev, Wait(parse, m, s, ev).0)
    decreases |ev|, if s.eof then 0 else 1, 0
  {
    if ev == [] {
      NothingMoved(s.buf + Read(ev));
    } else if LocalCall(ev[0]) {
      WaitConserves(parse, m, After(s, ev[0]), ev[1..]);
    } else if ReadFailed(ev[0]) {
      NothingMoved(s.buf + Read(ev[1..]));
    } else {
      LoopConserves(parse, m, After(s, ev[0]), ev[1..]);
      if ev[0].Chunk? {
        ConcatAssociative(s.buf, ev[0].bytes, Read(ev[1..]));
      }
    }
  }

  /** Whatever the framer answers, in whatever state: over any number of calls everything
      read is consumed in order or still buffered. */
  lemma {:induction false} CallsConserve<S>(parse: Parser<S>, m: S, s: Conn, ev: seq<Event>, n: nat)
    ensures var run := Calls(parse, m, s, ev, n);
            s.buf + Read(ev) == run.consumed + (run.conn.buf + Read(run.rest))
    decreases n
  {
    if n == 0 {
      assert [] + (s.buf + Read(ev)) == s.buf + Read(ev);
    } else {
      var (step, next) := Call(parse, m, s, ev);
      var run := Calls(parse, next, step.conn, step.rest, n - 1);
      CallsConserve(parse, next, step.conn, step.rest, n - 1);
      if CanReceive(s) {
        LoopConserves(parse, m, s, ev);
      } else {
        NothingMoved(s.buf + Read(ev));
      }
      Joined(s.buf + Read(ev), step.dropped, Body(step.outcome), step.conn.buf + Read(step.rest),
             run.consumed, run.conn.buf + Read(run.rest));
    }
  }

  lemma Joined<T>(all: seq<T>, a: seq<T>, b: seq<T>, rest: seq<T>, c: seq<T>, left: seq<T>)
    requires all == a + (b + rest) && rest == c + left
    ensures all == (a + b + c) + left
  {
    ConcatAssociative(a, b, c + left);
    ConcatAssociative(a + b, c, left);
  }

  // ---- The end of the stream ----

  lemma StepAfterEof<S>(parse: Parser<S>, m: S, s: Conn, ev: seq<Event>)
    requires s.eof && CanReceive(s)
    ensures var t := Loop(parse, m, s, ev).0.conn;
            t.eof && (CanReceive(t) ==> |t.buf| < |s.buf|)
  {
  }

  lemma {:induction false} RefusesOn<S>(parse: Parser<S>, m: S, s: Conn, ev: seq<Event>, n: nat)
    requires !CanReceive(s)
    ensures Calls(parse, m, s, ev, n).conn == s
    decreases n
  {
    if n > 0 {
      RefusesOn(parse, m, s, ev, n - 1);
    }
  }

  /** Whatever the framer answers: once the stream has ended, at most as many receives
      succeed as bytes are buffered, and one more ends it. */
  lemma {:induction false} EofDrains<S>(parse: Parser<S>, m: S, s: Conn, ev: seq<Event>, n: nat)
    requires s.eof && n > |s.buf|
    ensures !CanReceive(Calls(parse, m, s, ev, n).conn)
    decreases n
  {
    var (step, next) := Call(parse, m, s, ev);
    if CanReceive(s) {
      StepAfterEof(parse, m, s, ev);
    }
    if CanReceive(step.conn) {
      EofDrains(parse, next, step.conn, step.rest, n - 1);
    } else {
      RefusesOn(parse, next, step.conn, step.rest, n - 1);
    }
  }

  // ---- The same of the library's framers ----

  /** Everything a framer of the library is given to parse is consumed in order or still
      buffered. */
  lemma ReceivesConserve(f: Framer, s: Conn, ev: seq<Event>, n: nat)
    requires Usable(f)
    ensures var run := Receives(Some(f), s, ev, n);
            s.buf + Read(ev) == run.consumed + (run.conn.buf + Read(run.rest))
  {
    CallsOfStateless(f, s, ev, n);
    CallsConserve(Stateless(f), (), s, ev, n);
  }

  /** And it drains the stream. */
  lemma ReceivesDrain(f: Framer, s: Conn, ev: seq<Event>, n: nat)
    requires Usable(f) && s.eof && n > |s.buf|
    ensures !CanReceive(Receives(Some(f), s, ev, n).conn)
  {
    CallsOfStateless(f, s, ev, n);
    EofDrains(Stateless(f), (), s, ev, n);
  }
}
