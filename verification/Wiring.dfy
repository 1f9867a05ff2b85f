/** How the parts of the daemon meet: what a decoded message and a pass of the
    event loop ask of the loop's queues and of the fanout. */
module Wiring {
  import opened Bytes
  import opened Codec
  import D = DaemonLoop
  import F = FanoutRuns

  const SIGTERM: byte := 15

  /** Signal numbers without a name fall back to SIGTERM. */
  function SignalOf(raw: byte): byte {
    if 1 <= raw <= 31 then raw else SIGTERM
  }

  /** What a message asks of the loop's control channel. */
  function CommandOf(m: Message): Option<D.Command> {
    match m
    case Winch(rows, cols) => Some(D.Resize(rows, cols))
    case Redraw(how, rows, cols) => if how == NoRedraw then None else Some(D.Resize(rows, cols))
    case Kill(signal) => Some(D.Signal(SignalOf(signal)))
    case _ => None
  }

  /** What a message of connection `i` asks of the loop. */
  function MessageInLoop(i: nat, m: Message): seq<D.Step> {
    if m.Push? then [D.QueuePush(D.Tagged(i, m.payload))]
    else if CommandOf(m).Some? then [D.QueueControl(CommandOf(m).value)]
    else []
  }

  /** And of the fanout. */
  function MessageInFan(i: nat, m: Message): seq<F.Step> {
    match m
    case Attach(skip) => [F.Attaching(i, skip)]
    case Detach => [F.Detaching(i)]
    case _ => []
  }

  /** What handling a connection's next frame asks of the loop. */
  function HandleInLoop(i: nat, front: Front): seq<D.Step> {
    if front.Frame? then MessageInLoop(i, front.msg) else []
  }

  /** And of the fanout. A malformed frame ends the connection. */
  function HandleInFan(i: nat, front: Front): seq<F.Step> {
    match front
    case Frame(m, _) => MessageInFan(i, m)
    case Malformed => [F.Dropping(i)]
    case Short => []
  }

  /** A pty read is pushed to the fanout, an accept adds a client. */
  function SelectInFan(l: D.Loop, count: nat): seq<F.Step> {
    match D.Choose(l)
    case ReadPty => if 0 < count <= |l.unread| then [F.Pushed(l.unread[..count])] else []
    case Accept => [F.Connected]
    case _ => []
  }
}
