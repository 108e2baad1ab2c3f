/** What receive() of a Connection of a UDP Listener makes of its Mailbox, on values
    (src/UDPConnection.cpp). Everything a receiver does between two suspensions is one step on
    the Listener's strand. */
module UDPReceptions {
  import opened TapsApi
  import opened Mailboxes

  // What one look of receive() at the Mailbox ends with; Parked: it went to wait.
  datatype Reception<M> = Datagram(m: M) | Ended(event: ErrorEvent, reason: ErrorReason) | Parked

  function Cancelled<M>(event: ErrorEvent, aborted: bool): Reception<M> {
    if aborted then Ended(CONNECTION_ERROR, LOCAL_ABORT) else Ended(event, INVALID_STATE)
  }

  // The error a closed Mailbox ends receive() with.
  function CauseError<M>(cause: CloseCause, aborted: bool): Reception<M> {
    match cause
    case Idle => Ended(CONNECTION_ERROR, IDLE_TIMEOUT)
    case Displaced => Ended(CONNECTION_ERROR, RESOURCE_EXHAUSTED)
    case Owner => Cancelled(RECEIVE_ERROR, aborted)
  }

  // One look, and the Mailbox after it.
  function Look<M>(b: Box<M>, aborted: bool): (Box<M>, Reception<M>) {
    if b.items != [] then (b.(items := b.items[1..]), Datagram(b.items[0]))
    else if b.closed then (b, CauseError(b.cause, aborted))
    else (Wait(b), Parked)
  }

  // The same by a receiver whose wait() has completed.
  function LookAgain<M>(b: Box<M>, aborted: bool): (Box<M>, Reception<M>)
    requires b.woken > 0
  {
    Look(b.(woken := b.woken - 1), aborted)
  }
}
