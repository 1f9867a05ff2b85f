/** One connection's task as code. The code between two awaits is one method
    and one step of `FanoutRuns`; tasks that share a fanout take turns at their
    awaits, so every schedule of them is a run of that system. */
module ClientTasks {
  import opened Bytes
  import opened Codec
  import opened Fanouts
  import opened Hubs
  import opened Wiring
  import D = DaemonLoop
  import F = FanoutRuns

  datatype SendResult = Queued | Full | LoopGone

  /** The sending half of a bounded queue into the event loop. A send waits
      while the queue is full and fails once the loop is gone. */
  class Sender<T> {
    const capacity: nat
    var items: seq<T>
    var closed: bool

    constructor (capacity: nat)
      ensures this.capacity == capacity && items == [] && !closed
    {
      this.capacity, items, closed := capacity, [], false;
    }

    method Send(x: T) returns (r: SendResult)
      modifies `items
      ensures r == if closed then LoopGone else if old(|items|) >= capacity then Full else Queued
      ensures items == if r == Queued then old(items) + [x] else old(items)
    {
      if closed {
        return LoopGone;
      }
      if |items| >= capacity {
        return Full;
      }
      items := items + [x];
      r := Queued;
    }
  }

  /** What the framed reader produced: a message, an error, or end of stream. */
  datatype Incoming = Got(msg: Message) | ProtocolError | Closed

  // --------------------------------------------------- runs of one handler

  /** A socket that takes `room` more bytes and then fails: the write is whole,
      or the task ends. */
  function WriteSteps(i: nat, bytes: seq<byte>, room: nat): seq<F.Step> {
    if |bytes| <= room then (if bytes == [] then [] else [F.Writing(i, |bytes|)])
    else (if room == 0 then [] else [F.Writing(i, room)]) + [F.Dropping(i)]
  }

  function AttachSteps(i: nat, skipRing: bool, scrollback: seq<byte>, room: nat): seq<F.Step> {
    if skipRing then [F.Attaching(i, true)]
    else
      [F.Attaching(i, false)] + WriteSteps(i, scrollback, room)
      + (if |scrollback| <= room then [F.Joined(i)] else [])
  }

  function ReceiveSteps(i: nat, item: Received, room: nat): seq<F.Step> {
    match item
    case Empty => []
    case Lagged(_) => [F.Receiving(i)]
    case Item(chunk) => [F.Receiving(i)] + WriteSteps(i, chunk, room)
  }

  /** What an item from the reader makes the task do to the fanout; `gone` when
      the queue it needs has lost its loop. */
  function ItemSteps(i: nat, item: Incoming, gone: bool, scrollback: seq<byte>, room: nat): seq<F.Step> {
    match item
    case Got(Attach(skipRing)) => AttachSteps(i, skipRing, scrollback, room)
    case Got(m) => if gone then [F.Dropping(i)] else MessageInFan(i, m)
    case _ => [F.Dropping(i)]
  }

  lemma AttachRun(w: F.World, m: F.World, i: nat, room: nat)
    requires F.Enabled(w, F.Attaching(i, false))
    requires F.Exec(F.Next(w, F.Attaching(i, false)), WriteSteps(i, w.ring, room)) == Some(m)
    requires |w.ring| <= room ==> F.Enabled(m, F.Joined(i))
    ensures F.Exec(w, AttachSteps(i, false, w.ring, room))
         == Some(if |w.ring| <= room then F.Next(m, F.Joined(i)) else m)
  {
    var start, writes := F.Attaching(i, false), WriteSteps(i, w.ring, room);
    F.ExecOne(w, start);
    F.ExecConcat(w, [start], writes);
    if |w.ring| <= room {
      F.ExecSnoc(w, [start] + writes, F.Joined(i));
    } else {
      assert [start] + writes + [] == [start] + writes;
    }
  }

  // -------------------------------------------- the variables of the task

  datatype Vars = Vars(open: bool, attached: Option<nat>, joining: Option<nat>, pending: seq<byte>, socket: seq<byte>)

  function Cursor(r: Option<F.Receiver>): Option<nat> {
    if r.Some? then Some(r.value.next) else None
  }

  /** What the transition system says they are. */
  function VarsOf(c: F.Client): Vars {
    Vars(c.open, Cursor(c.attached), Cursor(c.joining), c.pending, F.Shown(c.episodes))
  }

  function HeldBy(v: Vars): nat {
    (if v.attached.Some? then 1 else 0) + (if v.joining.Some? then 1 else 0)
  }

  /** What a step in world `w` makes of them. */
  function After(w: F.World, v: Vars, s: F.Step): Vars
    requires s.Writing? ==> s.count <= |v.pending|
    requires s.Receiving? ==> v.attached.Some? && ChannelOk(w.ch)
  {
    match s
    case Attaching(_, skipRing) =>
      if skipRing then v.(attached := Some(w.ch.pos)) else v.(joining := Some(w.ch.pos), pending := w.ring)
    case Writing(_, n) => v.(socket := v.socket + v.pending[..n], pending := v.pending[n..])
    case Joined(_) => v.(attached := v.joining, joining := None)
    case Detaching(_) => v.(attached := None)
    case Receiving(_) =>
      (match Poll(w.ch, v.attached.value)
       case Empty => v
       case Lagged(_) => Vars(false, None, None, [], v.socket)
       case Item(chunk) => v.(attached := Some(v.attached.value + 1), pending := chunk))
    case Dropping(_) => Vars(false, None, None, [], v.socket)
    case _ => v
  }

  lemma AfterAttach(w: F.World, i: nat, skip: bool)
    requires F.Enabled(w, F.Attaching(i, skip))
    ensures VarsOf(F.Next(w, F.Attaching(i, skip)).clients[i]) == After(w, VarsOf(w.clients[i]), F.Attaching(i, skip))
  {
    F.AttachEffect(w, i, skip);
  }

  lemma AfterReceive(w: F.World, i: nat)
    requires F.Enabled(w, F.Receiving(i))
    ensures VarsOf(F.Next(w, F.Receiving(i)).clients[i]) == After(w, VarsOf(w.clients[i]), F.Receiving(i))
  {
    F.ReceiveEffect(w, i);
  }

  lemma AfterMove(w: F.World, s: F.Step, i: nat)
    requires F.Enabled(w, s) && F.OfClient(s, i)
    requires var c, c' := w.clients[i], F.Move(w, w.clients[i], s);
      F.Shown(c'.episodes) == if s.Writing? then F.Shown(c.episodes) + c.pending[..s.count] else F.Shown(c.episodes)
    ensures VarsOf(F.Next(w, s).clients[i]) == After(w, VarsOf(w.clients[i]), s)
  {
    match s {
      case Attaching(_, skip) => AfterAttach(w, i, skip);
      case Receiving(_) => AfterReceive(w, i);
      case _ =>
    }
  }

  lemma AfterStep(start: F.World, trace: seq<F.Step>, w: F.World, s: F.Step, i: nat)
    requires F.Reaches(start, trace, w) && F.Enabled(w, s) && F.OfClient(s, i)
    ensures var w' := F.Next(w, s);
      && F.Reaches(start, trace + [s], w') && w' == w.(clients := w.clients[i := w'.clients[i]])
      && VarsOf(w'.clients[i]) == After(w, VarsOf(w.clients[i]), s)
      && F.ReceiversOf(w.clients) >= HeldBy(VarsOf(w.clients[i]))
      && F.ReceiversOf(w'.clients)
         == F.ReceiversOf(w.clients) - HeldBy(VarsOf(w.clients[i])) + HeldBy(VarsOf(w'.clients[i]))
  {
    F.RunsOk(start, trace);
    F.ExecSnoc(start, trace, s);
    F.MoveEffects(w, s, i);
    AfterMove(w, s, i);
  }

  lemma AfterSubscribe(start: F.World, trace: seq<F.Step>, w: F.World, skip: bool, i: nat)
    requires F.Reaches(start, trace, w) && F.Enabled(w, F.Attaching(i, skip))
    ensures var w' := F.Next(w, F.Attaching(i, skip));
      var v, v' := VarsOf(w.clients[i]), VarsOf(w'.clients[i]);
      && F.Reaches(start, trace + [F.Attaching(i, skip)], w')
      && w' == w.(clients := w'.clients) && i < |w'.clients|
      && v' == (if skip then Vars(v.open, Some(w.ch.pos), v.joining, v.pending, v.socket)
                else Vars(v.open, v.attached, Some(w.ch.pos), w.ring, v.socket))
      && F.ReceiversOf(w'.clients)
         == F.ReceiversOf(w.clients) + (if skip && v.attached.Some? then 0 else 1)
  {
    AfterStep(start, trace, w, F.Attaching(i, skip), i);
  }

  class ClientTask {
    const hub: Hub
    /** Its place in the order of accepted connections. */
    const id: nat
    const pushTx: Sender<D.Tagged>
    const controlTx: Sender<D.Command>
    var open: bool
    /** The receiver's cursor while attached. */
    var attached: Option<nat>
    /** While an attach awaits its write: the receiver to keep afterwards. */
    var joining: Option<nat>
    /** What an awaited write still has to write. */
    var pending: seq<byte>
    /** Everything the client's socket has accepted. */
    var socket: seq<byte>

    /** They are what the transition system says they are. */
    ghost predicate Mirrored()
      reads this, hub
    {
      id < |hub.clients| && Vars(open, attached, joining, pending, socket) == VarsOf(hub.clients[id])
    }

    ghost predicate Valid()
      reads this, hub.Repr()
    {
      hub.Valid() && Mirrored()
    }

    /** Between two iterations of its select. */
    predicate Idle()
      reads this
    {
      open && joining == None && pending == []
    }

    constructor (hub: Hub, id: nat, pushTx: Sender<D.Tagged>, controlTx: Sender<D.Command>)
      requires hub.Valid() && id < |hub.clients| && hub.clients[id] == F.NewClient
      ensures Valid() && Idle() && attached == None && socket == []
      ensures this.hub == hub && this.id == id && this.pushTx == pushTx && this.controlTx == controlTx
    {
      this.hub, this.id, this.pushTx, this.controlTx := hub, id, pushTx, controlTx;
      open, attached, joining, pending, socket := true, None, None, [], [];
    }

    // ------------------------------------------------- from await to await

    /** Records a step the code has just taken. */
    ghost method Record(w: F.World, s: F.Step)
      requires hub.fanout.Valid() && F.Reaches(hub.start, hub.trace + [s], w)
      requires hub.World().(clients := w.clients) == w
      requires hub.fanout.tx.receivers == F.ReceiversOf(w.clients)
      requires id < |w.clients| && Vars(open, attached, joining, pending, socket) == VarsOf(w.clients[id])
      modifies hub
      ensures Valid() && hub.World() == w
    {
      hub.clients, hub.trace := w.clients, hub.trace + [s];
    }

    /** Drop the receiver it is attached by, if any. */
    method GiveUp()
      requires attached.Some? ==> hub.fanout.tx.receivers > 0
      modifies `attached, hub.fanout.tx`receivers
      ensures attached == None
      ensures hub.fanout.tx.receivers == old(hub.fanout.tx.receivers) - (if old(attached).Some? then 1 else 0)
    {
      if attached.Some? {
        hub.fanout.tx.Unsubscribe();
        attached := None;
      }
    }

    /** The start of an attach: the scrollback as it is now and a receiver at
        the next push, taken as one. Unless the scrollback is declined the old
        receiver is only given up once it is out. */
    method Subscribe(skipRing: bool)
      requires Valid() && Idle()
      modifies this, hub, hub.fanout.tx`receivers
      ensures Valid()
      ensures hub.World() == F.Next(old(hub.World()), F.Attaching(id, skipRing))
      ensures open && socket == old(socket)
      ensures if skipRing then attached == Some(hub.fanout.tx.channel.pos) && joining == None && pending == []
              else attached == old(attached) && joining == Some(hub.fanout.tx.channel.pos)
                   && pending == old(hub.World()).ring
    {
      ghost var step := F.Attaching(id, skipRing);
      ghost var next := F.Next(hub.World(), step);
      AfterSubscribe(hub.start, hub.trace, hub.World(), skipRing, id);
      var snapshot, rx := hub.fanout.Attach();
      if !skipRing {
        joining, pending := Some(rx), snapshot;
        Record(next, step);
        return;
      }
      GiveUp();
      attached := Some(rx);
      Record(next, step);
    }

    /** The socket takes `n` more bytes. */
    method WriteSome(n: nat)
      requires Valid() && open && 0 < n <= |pending|
      modifies `socket, `pending, hub
      ensures Valid()
      ensures hub.World() == F.Next(old(hub.World()), F.Writing(id, n))
      ensures socket == old(socket) + old(pending)[..n] && pending == old(pending)[n..]
    {
      ghost var step := F.Writing(id, n);
      ghost var next := F.Next(hub.World(), step);
      AfterStep(hub.start, hub.trace, hub.World(), step, id);
      socket, pending := socket + pending[..n], pending[n..];
      Record(next, step);
    }

    /** The end of an attach: the scrollback is out. */
    method Join()
      requires Valid() && joining.Some? && pending == []
      modifies `attached, `joining, hub, hub.fanout.tx`receivers
      ensures Valid()
      ensures hub.World() == F.Next(old(hub.World()), F.Joined(id))
      ensures attached == old(joining) && joining == None
      ensures hub.fanout.tx.receivers == old(hub.fanout.tx.receivers) - (if old(attached).Some? then 1 else 0)
    {
      ghost var step := F.Joined(id);
      ghost var next := F.Next(hub.World(), step);
      AfterStep(hub.start, hub.trace, hub.World(), step, id);
      GiveUp();
      attached, joining := joining, None;
      Record(next, step);
    }

    method Detach()
      requires Valid() && Idle()
      modifies `attached, hub, hub.fanout.tx`receivers
      ensures Valid()
      ensures hub.World() == F.Next(old(hub.World()), F.Detaching(id))
      ensures attached == None && Idle()
      ensures hub.fanout.tx.receivers == old(hub.fanout.tx.receivers) - (if old(attached).Some? then 1 else 0)
    {
      ghost var step := F.Detaching(id);
      ghost var next := F.Next(hub.World(), step);
      AfterStep(hub.start, hub.trace, hub.World(), step, id);
      GiveUp();
      Record(next, step);
    }

    /** The task returns: its receivers go with it. */
    method Drop()
      requires Valid() && open
      modifies this, hub, hub.fanout.tx`receivers
      ensures Valid() && !open
      ensures hub.World() == F.Next(old(hub.World()), F.Dropping(id))
      ensures attached == None && joining == None && pending == [] && socket == old(socket)
      ensures hub.fanout.tx.receivers == old(hub.fanout.tx.receivers)
           - (if old(attached).Some? then 1 else 0) - (if old(joining).Some? then 1 else 0)
    {
      ghost var step := F.Dropping(id);
      ghost var next := F.Next(hub.World(), step);
      AfterStep(hub.start, hub.trace, hub.World(), step, id);
      Release();
      Record(next, step);
    }

    method Release()
      requires hub.fanout.tx.receivers >= (if attached.Some? then 1 else 0) + (if joining.Some? then 1 else 0)
      modifies this, hub.fanout.tx`receivers
      ensures !open && attached == None && joining == None && pending == [] && socket == old(socket)
      ensures hub.fanout.tx.receivers == old(hub.fanout.tx.receivers)
           - (if old(attached).Some? then 1 else 0) - (if old(joining).Some? then 1 else 0)
    {
      GiveUp();
      if joining.Some? {
        hub.fanout.tx.Unsubscribe();
      }
      open, joining, pending := false, None, [];
    }

    /** The live stream wakes the task up: the next chunk is to be written, or
        the client has lagged and the task ends. */
    method Receive() returns (r: Received)
      requires Valid() && Idle() && attached.Some?
      modifies this, hub, hub.fanout.tx`receivers
      ensures Valid()
      ensures r == Poll(hub.fanout.tx.channel, old(attached).value)
      ensures hub.World() == if r == Empty then old(hub.World()) else F.Next(old(hub.World()), F.Receiving(id))
      ensures socket == old(socket)
      ensures match r
        case Empty => Idle() && attached == old(attached)
        case Lagged(_) => !open && attached == None
        case Item(chunk) => open && attached == Some(old(attached).value + 1) && pending == chunk
    {
      var cursor;
      r, cursor := hub.fanout.tx.Recv(attached.value);
      if r == Empty {
        return;
      }
      ghost var step := F.Receiving(id);
      ghost var next := F.Next(hub.World(), step);
      AfterStep(hub.start, hub.trace, hub.World(), step, id);
      match r {
        case Lagged(_) => Release();
        case Item(chunk) => attached, pending := Some(cursor), chunk;
      }
      Record(next, step);
    }

    // --------------------------------------------------------- whole arms

    /** `write_all` of what is pending, then an end of the task if it failed. */
    method WritePending(room: nat) returns (ok: bool)
      requires Valid() && open
      modifies this, hub, hub.fanout.tx`receivers
      ensures Valid() && ok == open == (old(|pending|) <= room)
      ensures ok ==> pending == [] && attached == old(attached) && joining == old(joining)
      ensures F.Exec(old(hub.World()), WriteSteps(id, old(pending), room)) == Some(hub.World())
      ensures socket == old(socket) + (if ok then old(pending) else old(pending)[..room])
      ensures !ok ==> attached == None && joining == None
    {
      ghost var w, steps := hub.World(), WriteSteps(id, pending, room);
      ok := |pending| <= room;
      var n := if ok then |pending| else room;
      ghost var written := if n == 0 then [] else [F.Writing(id, n)];
      F.ExecOne(w, F.Writing(id, n));
      if n > 0 {
        WriteSome(n);
      }
      if !ok {
        F.ExecSnoc(w, written, F.Dropping(id));
        Drop();
      }
    }

    /** An attach that meets no other step. */
    method OnAttach(skipRing: bool, room: nat)
      requires Valid() && Idle()
      modifies this, hub, hub.fanout.tx`receivers
      ensures Valid() && (open ==> Idle())
      ensures F.Exec(old(hub.World()), AttachSteps(id, skipRing, old(hub.World()).ring, room)) == Some(hub.World())
      ensures var scrollback := old(hub.World()).ring;
        if skipRing || |scrollback| <= room then
          && open && attached == Some(hub.fanout.tx.channel.pos)
          && socket == old(socket) + (if skipRing then [] else scrollback)
        else !open && attached == None && socket == old(socket) + scrollback[..room]
    {
      ghost var w := hub.World();
      F.ExecOne(w, F.Attaching(id, skipRing));
      Subscribe(skipRing);
      if !skipRing {
        ShowScrollback(room, w);
      }
    }

    /** The rest of an attach begun in world `w`. */
    method ShowScrollback(room: nat, ghost w: F.World)
      requires Valid() && open && joining == Some(hub.fanout.tx.channel.pos) && pending == w.ring
      requires F.Enabled(w, F.Attaching(id, false)) && hub.World() == F.Next(w, F.Attaching(id, false))
      modifies this, hub, hub.fanout.tx`receivers
      ensures Valid() && (open ==> Idle())
      ensures F.Exec(w, AttachSteps(id, false, w.ring, room)) == Some(hub.World())
      ensures open == (|w.ring| <= room)
      ensures open ==> attached == Some(hub.fanout.tx.channel.pos) && socket == old(socket) + w.ring
      ensures !open ==> attached == None && socket == old(socket) + w.ring[..room]
    {
      var ok := WritePending(room);
      AttachRun(w, hub.World(), id, room);
      if ok {
        Join();
      }
    }

    /** One wake-up of the live stream that meets no other step. */
    method OnReceive(room: nat)
      requires Valid() && Idle() && attached.Some?
      modifies this, hub, hub.fanout.tx`receivers
      ensures Valid() && (open ==> Idle())
      ensures F.Exec(old(hub.World()), ReceiveSteps(id, Poll(old(hub.fanout.tx.channel), old(attached).value), room))
           == Some(hub.World())
      ensures match Poll(old(hub.fanout.tx.channel), old(attached).value)
        case Empty => open && attached == old(attached) && socket == old(socket)
        case Lagged(_) => !open && attached == None && socket == old(socket)
        case Item(chunk) =>
          if |chunk| <= room then
            open && attached == Some(old(attached).value + 1) && socket == old(socket) + chunk
          else !open && attached == None && socket == old(socket) + chunk[..room]
    {
      ghost var w := hub.World();
      F.ExecOne(w, F.Receiving(id));
      var r := Receive();
      if r.Item? {
        WriteItem(room, w);
      }
    }

    /** The write of an item received in world `w`. */
    method WriteItem(room: nat, ghost w: F.World)
      requires Valid() && open && joining == None
      requires F.Exec(w, [F.Receiving(id)]) == Some(hub.World())
      modifies this, hub, hub.fanout.tx`receivers
      ensures Valid() && (open ==> Idle())
      ensures F.Exec(w, [F.Receiving(id)] + WriteSteps(id, old(pending), room)) == Some(hub.World())
      ensures open == (|old(pending)| <= room)
      ensures open ==> attached == old(attached) && socket == old(socket) + old(pending)
      ensures !open ==> attached == None && socket == old(socket) + old(pending)[..room]
    {
      F.ExecConcat(w, [F.Receiving(id)], WriteSteps(id, pending, room));
      var _ := WritePending(room);
    }

    /** The queue a message needs has lost its loop. */
    predicate Gone(item: Incoming)
      reads pushTx, controlTx
    {
      item.Got? && ((item.msg.Push? && pushTx.closed) || (CommandOf(item.msg).Some? && controlTx.closed))
    }

    /** Sends what a message asks of the loop `l` at the other end; `Full`
        means that it has to wait, with nothing done. */
    method SendToLoop(m: Message, ghost l: D.Loop) returns (r: SendResult)
      requires pushTx.capacity == D.PUSH_CAPACITY && controlTx.capacity == D.CONTROL_CAPACITY
      requires pushTx.items == l.pushes && controlTx.items == l.control
      modifies pushTx`items, controlTx`items
      ensures r == LoopGone <==> Gone(Got(m))
      ensures r == Full <==> !Gone(Got(m)) && D.Exec(l, MessageInLoop(id, m)).None?
      ensures var l' := if r == Queued then D.Exec(l, MessageInLoop(id, m)).value else l;
        pushTx.items == l'.pushes && controlTx.items == l'.control
      ensures pushTx.items ==
        if r == Queued && m.Push? then old(pushTx.items) + [D.Tagged(id, m.payload)] else old(pushTx.items)
      ensures r == Queued ==> match m
        case Winch(rows, cols) => controlTx.items == old(controlTx.items) + [D.Resize(rows, cols)]
        case Redraw(how, rows, cols) =>
          controlTx.items == old(controlTx.items) + (if how == NoRedraw then [] else [D.Resize(rows, cols)])
        case Kill(signal) =>
          controlTx.items == old(controlTx.items) + [D.Signal(if 1 <= signal <= 31 then signal else 15)]
        case _ => controlTx.items == old(controlTx.items)
      ensures r != Queued ==> controlTx.items == old(controlTx.items)
    {
      D.ExecOne(l, D.QueuePush(D.Tagged(id, if m.Push? then m.payload else [])));
      D.ExecOne(l, D.QueueControl(if CommandOf(m).Some? then CommandOf(m).value else D.Signal(SIGTERM)));
      match m {
        case Push(data) => r := pushTx.Send(D.Tagged(id, data));
        case Winch(rows, cols) => r := controlTx.Send(D.Resize(rows, cols));
        case Redraw(how, rows, cols) =>
          r := Queued;
          if how != NoRedraw {
            r := controlTx.Send(D.Resize(rows, cols));
          }
        case Kill(signal) => r := controlTx.Send(D.Signal(SignalOf(signal)));
        case _ => r := Queued;
      }
    }

    /** One item from the framed reader: what it asks of the loop `l` at the
        other end of the queues and of the fanout. When the queue it needs is
        full it is not `handled` yet, and nothing else of this connection is
        until it is. */
    method OnItem(item: Incoming, room: nat, ghost l: D.Loop) returns (handled: bool)
      requires Valid() && Idle()
      requires pushTx.capacity == D.PUSH_CAPACITY && controlTx.capacity == D.CONTROL_CAPACITY
      requires pushTx.items == l.pushes && controlTx.items == l.control
      modifies this, hub, hub.fanout.tx`receivers, pushTx`items, controlTx`items
      ensures Valid() && (open ==> Idle())
      ensures handled <==> (item.Got? && !Gone(item) ==> D.Exec(l, MessageInLoop(id, item.msg)).Some?)
      ensures var l' := if handled && item.Got? && !Gone(item) then D.Exec(l, MessageInLoop(id, item.msg)).value else l;
        pushTx.items == l'.pushes && controlTx.items == l'.control
      ensures var steps := if handled then ItemSteps(id, item, Gone(item), old(hub.World()).ring, room) else [];
        F.Exec(old(hub.World()), steps) == Some(hub.World())
      ensures item == Got(Codec.Detach) ==>
        && handled && Idle() && attached == None && socket == old(socket)
        && hub.fanout.tx.receivers == old(hub.fanout.tx.receivers) - (if old(attached).Some? then 1 else 0)
      ensures item == ProtocolError || item == Closed || Gone(item) ==> handled && !open
      ensures item.Got? && item.msg.Attach? && open ==>
        && attached == Some(hub.fanout.tx.channel.pos)
        && socket == old(socket) + (if item.msg.skipRing then [] else old(hub.World()).ring)
    {
      handled := true;
      F.ExecOne(hub.World(), F.Dropping(id));
      if !item.Got? {
        Drop();
      } else {
        var sent := SendToLoop(item.msg, l);
        match sent {
          case LoopGone => Drop();
          case Full => handled := false;
          case Queued => OnSent(item.msg, room);
        }
      }
    }

    /** What is left to do for a message once the loop has its part. */
    method OnSent(m: Message, room: nat)
      requires Valid() && Idle()
      modifies this, hub, hub.fanout.tx`receivers
      ensures Valid() && (open ==> Idle())
      ensures F.Exec(old(hub.World()), ItemSteps(id, Got(m), false, old(hub.World()).ring, room)) == Some(hub.World())
      ensures m == Codec.Detach ==>
        && Idle() && attached == None && socket == old(socket)
        && hub.fanout.tx.receivers == old(hub.fanout.tx.receivers) - (if old(attached).Some? then 1 else 0)
      ensures !m.Attach? ==> Idle() && socket == old(socket) && (!m.Detach? ==> attached == old(attached))
      ensures m.Attach? && open ==>
        && attached == Some(hub.fanout.tx.channel.pos)
        && socket == old(socket) + (if m.skipRing then [] else old(hub.World()).ring)
    {
      F.ExecOne(hub.World(), F.Detaching(id));
      match m {
        case Attach(skipRing) => OnAttach(skipRing, room);
        case Detach => Detach();
        case _ =>
      }
    }

    /** Any step of the task, taken exactly when the transition system allows it. */
    method Act(s: F.Step) returns (acted: bool)
      requires Valid() && F.OfClient(s, id)
      modifies this, hub, hub.fanout.tx`receivers
      ensures Valid()
      ensures acted == F.Enabled(old(hub.World()), s)
      ensures hub.World() == if acted then F.Next(old(hub.World()), s) else old(hub.World())
      ensures |hub.clients| == |old(hub.clients)|
      ensures forall j :: 0 <= j < |hub.clients| && j != id ==> hub.clients[j] == old(hub.clients)[j]
    {
      acted := true;
      match s {
        case Attaching(_, skipRing) =>
          if Idle() { Subscribe(skipRing); } else { acted := false; }
        case Writing(_, n) =>
          if open && 0 < n <= |pending| { WriteSome(n); } else { acted := false; }
        case Joined(_) =>
          if joining.Some? && pending == [] { Join(); } else { acted := false; }
        case Detaching(_) =>
          if Idle() { Detach(); } else { acted := false; }
        case Receiving(_) =>
          acted := false;
          if Idle() && attached.Some? {
            var r := Receive();
            acted := r != Empty;
          }
        case Dropping(_) =>
          if open { Drop(); } else { acted := false; }
      }
    }
  }

  /** What a task's socket was written: the attachments' bytes one after the
      other, each a prefix of what the attachment is entitled to. */
  lemma SocketIsHistory(t: ClientTask)
    requires t.Valid()
    ensures var w := t.hub.World();
      var episodes := w.clients[t.id].episodes;
      && t.socket == F.Shown(episodes)
      && forall j :: 0 <= j < |episodes| ==>
           episodes[j].from <= |w.history| && episodes[j].written <= F.Entitled(w.cap, w.history, episodes[j])
  {
    var start, w := t.hub.start, t.hub.World();
    forall j | 0 <= j < |w.clients[t.id].episodes|
      ensures var e := w.clients[t.id].episodes[j];
        e.from <= |w.history| && e.written <= F.Entitled(w.cap, w.history, e)
    {
      F.NoGapNoDuplicate(start.cap, start.ch.capacity, t.hub.trace, t.id, j);
    }
  }

  /** All tasks on a hub are where the transition system says they are. */
  ghost predicate AllValid(hub: Hub, tasks: seq<ClientTask>)
    reads hub.Repr(), tasks
  {
    && hub.Valid() && |tasks| == |hub.clients|
    && forall i :: 0 <= i < |tasks| ==> tasks[i].hub == hub && tasks[i].id == i && tasks[i].Mirrored()
  }

  /** An accepted connection gets a task of its own. */
  method Spawn(hub: Hub, tasks: seq<ClientTask>, pushTx: Sender<D.Tagged>, controlTx: Sender<D.Command>)
    returns (all: seq<ClientTask>)
    requires AllValid(hub, tasks)
    modifies hub
    ensures AllValid(hub, all)
    ensures |all| == |tasks| + 1 && all[..|tasks|] == tasks && fresh(all[|tasks|])
    ensures hub.World() == F.Next(old(hub.World()), F.Connected)
  {
    hub.Connect();
    var t := new ClientTask(hub, |tasks|, pushTx, controlTx);
    all := tasks + [t];
  }

  /** A task's turn leaves all others where they were. */
  method TakeTurn(hub: Hub, tasks: seq<ClientTask>, s: F.Step) returns (acted: bool)
    requires AllValid(hub, tasks) && !s.Pushed? && !s.Connected?
    modifies hub.Repr(), tasks
    ensures AllValid(hub, tasks)
    ensures acted == F.Enabled(old(hub.World()), s)
    ensures hub.World() == if acted then F.Next(old(hub.World()), s) else old(hub.World())
  {
    acted := s.client < |tasks|;
    if acted {
      acted := tasks[s.client].Act(s);
      forall i | 0 <= i < |tasks| ensures tasks[i].Mirrored() {
        if i != s.client {
          assert hub.clients[i] == old(hub.clients)[i];
        }
      }
    }
  }

  /** One step of one task or of the event loop, taken exactly when the
      transition system allows it. */
  method Perform(hub: Hub, tasks: seq<ClientTask>, pushTx: Sender<D.Tagged>, controlTx: Sender<D.Command>, s: F.Step)
    returns (all: seq<ClientTask>, acted: bool)
    requires AllValid(hub, tasks)
    modifies hub.Repr(), tasks
    ensures AllValid(hub, all)
    ensures forall i :: 0 <= i < |all| ==> all[i] in tasks || fresh(all[i])
    ensures acted == F.Enabled(old(hub.World()), s)
    ensures hub.World() == if acted then F.Next(old(hub.World()), s) else old(hub.World())
  {
    all, acted := tasks, true;
    match s {
      case Pushed(chunk) =>
        hub.Push(chunk);
      case Connected =>
        all := Spawn(hub, tasks, pushTx, controlTx);
      case _ =>
        acted := TakeTurn(hub, tasks, s);
    }
  }

  /** Tasks on one fanout and the event loop taking turns in any order: what
      they do is the run of the transition system with those of the scheduled
      steps that are possible, all of them if all are. */
  method RunTasks(hub: Hub, tasks: seq<ClientTask>, pushTx: Sender<D.Tagged>, controlTx: Sender<D.Command>,
                  schedule: seq<F.Step>)
    returns (all: seq<ClientTask>, ghost trace: seq<F.Step>)
    requires AllValid(hub, tasks)
    modifies hub.Repr(), tasks
    ensures AllValid(hub, all)
    ensures F.Exec(old(hub.World()), trace) == Some(hub.World())
    ensures F.Exec(old(hub.World()), schedule).Some? ==> trace == schedule
  {
    all, trace := tasks, [];
    for k := 0 to |schedule|
      invariant AllValid(hub, all)
      invariant forall i :: 0 <= i < |all| ==> all[i] in tasks || fresh(all[i])
      invariant F.Exec(old(hub.World()), trace) == Some(hub.World())
      invariant F.Exec(old(hub.World()), schedule[..k]).Some? ==> trace == schedule[..k]
    {
      ScheduledStep(old(hub.World()), hub.World(), trace, schedule, k);
      var acted;
      all, acted := Perform(hub, all, pushTx, controlTx, schedule[k]);
      if acted {
        trace := trace + [schedule[k]];
      }
    }
    assert schedule[..|schedule|] == schedule;
  }

  lemma ScheduledStep(start: F.World, w: F.World, trace: seq<F.Step>, schedule: seq<F.Step>, k: nat)
    requires k < |schedule| && F.Exec(start, trace) == Some(w)
    requires F.Exec(start, schedule[..k]).Some? ==> trace == schedule[..k]
    ensures F.Enabled(w, schedule[k]) ==> F.Exec(start, trace + [schedule[k]]) == Some(F.Next(w, schedule[k]))
    ensures F.Exec(start, schedule[..k + 1]).Some? ==>
      trace + [schedule[k]] == schedule[..k + 1] && F.Enabled(w, schedule[k])
  {
    assert schedule[..k + 1] == schedule[..k] + [schedule[k]];
    if F.Enabled(w, schedule[k]) {
      F.ExecSnoc(start, trace, schedule[k]);
    }
    if F.Exec(start, schedule[..k + 1]).Some? {
      F.ExecSplit(start, schedule[..k], schedule[k]);
    }
  }
}
