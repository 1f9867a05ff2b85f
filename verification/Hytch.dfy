/** The whole daemon: connections, event loop, fanout and log writer running
    together, every step of each interleaved freely with the others'. One
    output history drives scrollback, live clients and the log; one stream of
    frames per connection drives the pty. */
module Hytch {
  import opened Bytes
  import opened Codec
  import opened Rotation
  import opened SessionLogs
  import opened LogReplay
  import opened Wiring
  import Attaching = AttachLoop
  import Pushing = PushCommand
  import D = DaemonLoop
  import F = FanoutRuns

  const MAX: nat := DEFAULT_MAX_FRAME_LEN

  /** The server end of a connection: bytes received and not yet decoded.
      `arrived` and `msgs` record what came in and what was acted on. */
  datatype Conn = Conn(arrived: seq<byte>, buf: seq<byte>, msgs: seq<Message>)

  /** `file` after the log writer has appended `done` of the chunks sent to
      it, having opened on `initial`. */
  datatype System = System(
    loop: D.Loop,
    fan: F.World,
    conns: seq<Conn>,
    initial: seq<byte>,
    logCap: nat,
    file: seq<byte>,
    done: nat)

  datatype Step =
    | Daemon(loopStep: D.Step)
    | Deliver(conn: nat, bytes: seq<byte>)
    | Handle(conn: nat)
    | Client(fanStep: F.Step)
    | WriteLog

  function Start(ringCap: nat, capacity: nat, logging: bool, initial: seq<byte>, logCap: nat): System {
    System(D.Fresh(logging), F.Initial(ringCap, capacity), [], initial, logCap, Rotate(initial, logCap), 0)
  }

  function LoopPart(sys: System, s: Step): seq<D.Step> {
    match s
    case Daemon(ls) => [ls]
    case Handle(i) => if i < |sys.conns| then HandleInLoop(i, ScanFront(sys.conns[i].buf, MAX)) else []
    case _ => []
  }

  function FanPart(sys: System, s: Step): seq<F.Step> {
    match s
    case Daemon(Select(count)) => SelectInFan(sys.loop, count)
    case Handle(i) => if i < |sys.conns| then HandleInFan(i, ScanFront(sys.conns[i].buf, MAX)) else []
    case Client(fs) => [fs]
    case _ => []
  }

  /** A message is handled only between writes to its client, and a push or a
      command waits for room in its queue. */
  predicate Guard(sys: System, s: Step) {
    match s
    case Daemon(ls) => !ls.QueueControl? && !ls.QueuePush?
    case Deliver(i, _) => i < |sys.conns|
    case Handle(i) =>
      && i < |sys.conns| && i < |sys.fan.clients| && F.Idle(sys.fan.clients[i])
      && ScanFront(sys.conns[i].buf, MAX) != Short
    case Client(fs) => fs.Writing? || fs.Joined? || fs.Receiving? || fs.Dropping?
    case WriteLog => sys.done < |sys.loop.logged|
  }

  predicate Enabled(sys: System, s: Step) {
    && Guard(sys, s)
    && D.Exec(sys.loop, LoopPart(sys, s)).Some?
    && F.Exec(sys.fan, FanPart(sys, s)).Some?
  }

  function NextConns(sys: System, s: Step): seq<Conn> {
    match s
    case Daemon(Select(_)) =>
      if D.Choose(sys.loop) == D.Accept then sys.conns + [Conn([], [], [])] else sys.conns
    case Deliver(i, bytes) =>
      if i >= |sys.conns| then sys.conns
      else
        var c := sys.conns[i];
        sys.conns[i := c.(arrived := c.arrived + bytes, buf := c.buf + bytes)]
    case Handle(i) =>
      if i >= |sys.conns| then sys.conns
      else
        var c := sys.conns[i];
        (match ScanFront(c.buf, MAX)
         case Frame(m, size) => sys.conns[i := c.(buf := c.buf[size..], msgs := c.msgs + [m])]
         case _ => sys.conns)
    case _ => sys.conns
  }

  function Next(sys: System, s: Step): System
    requires Enabled(sys, s)
  {
    var next := sys.(
      loop := D.Exec(sys.loop, LoopPart(sys, s)).value,
      fan := F.Exec(sys.fan, FanPart(sys, s)).value,
      conns := NextConns(sys, s));
    if s.WriteLog? then
      next.(file := Rotate(sys.file + sys.loop.logged[sys.done], sys.logCap), done := sys.done + 1)
    else next
  }

  function Exec(sys: System, steps: seq<Step>): Option<System>
    decreases |steps|
  {
    if steps == [] then Some(sys)
    else if Enabled(sys, steps[0]) then Exec(Next(sys, steps[0]), steps[1..])
    else None
  }

  /** When each part can take a step: the loop, its queues apart, whenever the
      event loop can; a client task whenever the fanout lets it; the network and
      the log writer whenever there is a connection and a chunk. */
  lemma EnabledExact(sys: System, s: Step)
    requires !s.Handle?
    ensures Enabled(sys, s) <==> match s
      case Daemon(ls) => D.Enabled(sys.loop, ls) && !ls.QueueControl? && !ls.QueuePush?
      case Deliver(i, _) => i < |sys.conns|
      case Client(fs) => F.Enabled(sys.fan, fs) && (fs.Writing? || fs.Joined? || fs.Receiving? || fs.Dropping?)
      case WriteLog => sys.done < |sys.loop.logged|
  {
    match s {
      case Daemon(ls) =>
        var fs := FanPart(sys, s);
        D.ExecOne(sys.loop, ls);
        F.ExecOne(sys.fan, if fs == [] then F.Connected else fs[0]);
        assert fs == [] || fs == [fs[0]];
      case Client(fs) =>
        D.ExecOne(sys.loop, D.HangUp);
        F.ExecOne(sys.fan, fs);
      case _ =>
        D.ExecOne(sys.loop, D.HangUp);
        F.ExecOne(sys.fan, F.Connected);
    }
  }

  /** What a step other than a handled frame does to connections and log: bytes
      arrive at the end of what a connection has not decoded yet, an accept adds
      an empty connection, and the writer appends the next chunk it was sent. */
  lemma StepEffect(sys: System, s: Step)
    requires Enabled(sys, s) && !s.Handle?
    ensures var next := Next(sys, s);
      && (match s
          case Deliver(i, bytes) =>
            var c := sys.conns[i];
            next.conns == sys.conns[i := Conn(c.arrived + bytes, c.buf + bytes, c.msgs)]
          case Daemon(ls) =>
            next.conns == sys.conns + (if next.loop.accepted == sys.loop.accepted then [] else [Conn([], [], [])])
          case _ => next.conns == sys.conns)
      && (match s
          case WriteLog =>
            next.file == Rotate(sys.file + sys.loop.logged[sys.done], sys.logCap) && next.done == sys.done + 1
          case _ => next.file == sys.file && next.done == sys.done)
      && (s.Daemon? || next.loop == sys.loop) && (s.Daemon? || s.Client? || next.fan == sys.fan)
  {
    EnabledExact(sys, s);
    D.ExecOne(sys.loop, if s.Daemon? then s.loopStep else D.HangUp);
    F.ExecOne(sys.fan, F.Connected);
    assert sys.conns + [] == sys.conns;
  }

  /** The log writer can always catch up: what was sent to it is written, with
      nothing else changed. */
  lemma {:induction false} LogDrains(sys: System) returns (steps: seq<Step>)
    requires sys.done <= |sys.loop.logged|
    ensures Exec(sys, steps).Some?
    ensures var end := Exec(sys, steps).value;
      end.done == |sys.loop.logged| && end.loop == sys.loop && end.fan == sys.fan && end.conns == sys.conns
    decreases |sys.loop.logged| - sys.done
  {
    steps := [];
    if sys.done < |sys.loop.logged| {
      EnabledExact(sys, WriteLog);
      D.ExecOne(sys.loop, D.HangUp);
      F.ExecOne(sys.fan, F.Connected);
      var rest := LogDrains(Next(sys, WriteLog));
      steps := [WriteLog] + rest;
    }
  }

  // ------------------------------------------------- each part on its own

  function LoopTrace(sys: System, steps: seq<Step>): seq<D.Step>
    requires Exec(sys, steps).Some?
    decreases |steps|
  {
    if steps == [] then [] else LoopPart(sys, steps[0]) + LoopTrace(Next(sys, steps[0]), steps[1..])
  }

  function FanTrace(sys: System, steps: seq<Step>): seq<F.Step>
    requires Exec(sys, steps).Some?
    decreases |steps|
  {
    if steps == [] then [] else FanPart(sys, steps[0]) + FanTrace(Next(sys, steps[0]), steps[1..])
  }

  /** A run of the whole is a run of the event loop and a run of the fanout:
      everything proved of those holds here. */
  lemma {:induction false} RunsProject(sys: System, steps: seq<Step>)
    requires Exec(sys, steps).Some?
    ensures D.Exec(sys.loop, LoopTrace(sys, steps)) == Some(Exec(sys, steps).value.loop)
    ensures F.Exec(sys.fan, FanTrace(sys, steps)) == Some(Exec(sys, steps).value.fan)
    decreases |steps|
  {
    if steps != [] {
      var next := Next(sys, steps[0]);
      D.ExecConcat(sys.loop, LoopPart(sys, steps[0]), LoopTrace(next, steps[1..]));
      F.ExecConcat(sys.fan, FanPart(sys, steps[0]), FanTrace(next, steps[1..]));
      RunsProject(next, steps[1..]);
    }
  }

  // ------------------------------------------------------- linking invariant

  function PushesOf(ms: seq<Message>): seq<Chunk> {
    if ms == [] then []
    else (if ms[0].Push? then [ms[0].payload] else []) + PushesOf(ms[1..])
  }

  lemma {:induction false} PushesOfConcat(a: seq<Message>, b: seq<Message>)
    ensures PushesOf(a + b) == PushesOf(a) + PushesOf(b)
  {
    if a == [] {
      assert a + b == b;
    } else {
      assert (a + b)[1..] == a[1..] + b;
      PushesOfConcat(a[1..], b);
      Reassociate(if a[0].Push? then [a[0].payload] else [], PushesOf(a[1..]), PushesOf(b));
    }
  }

  lemma PushesOfOne(m: Message)
    ensures PushesOf([m]) == if m.Push? then [m.payload] else []
  {
    assert [m][1..] == [];
  }

  lemma {:induction false} PushesSpell(ms: seq<Message>)
    ensures Flatten(PushesOf(ms)) == PushedBytes(ms)
  {
    if ms != [] {
      PushesSpell(ms[1..]);
      if ms[0].Push? {
        assert PushesOf(ms)[1..] == PushesOf(ms[1..]);
      } else {
        assert PushesOf(ms) == PushesOf(ms[1..]);
      }
    }
  }

  /** What a connection has acted on is how parsing all it received begins. */
  ghost predicate Decoding(c: Conn) {
    var left := Parse(c.buf, MAX);
    Parse(c.arrived, MAX) == Parsed(c.msgs + left.msgs, left.failed, left.rest)
  }

  ghost predicate ConnOk(sys: System, i: nat)
    requires i < |sys.conns|
  {
    Decoding(sys.conns[i]) && D.Only(sys.loop.sent, i) == PushesOf(sys.conns[i].msgs)
  }

  ghost predicate Linked(sys: System) {
    && sys.fan.history == sys.loop.output
    && |sys.conns| == |sys.fan.clients| == sys.loop.accepted
    && (forall t | t in sys.loop.sent :: t.conn < |sys.conns|)
    && (forall i :: 0 <= i < |sys.conns| ==> ConnOk(sys, i))
  }

  ghost predicate LogLinked(sys: System) {
    && sys.done <= |sys.loop.logged|
    && sys.file == AppendAll(Rotate(sys.initial, sys.logCap), sys.logCap, sys.loop.logged[..sys.done])
  }

  /** Steps other than a push or an accept leave history and clients be. */
  lemma FanExecFrame(w: F.World, steps: seq<F.Step>)
    requires |steps| <= 1 && F.Exec(w, steps).Some?
    requires steps != [] ==> !steps[0].Pushed? && !steps[0].Connected?
    ensures var w' := F.Exec(w, steps).value; w'.history == w.history && |w'.clients| == |w.clients|
  {
    if steps != [] {
      assert steps == [steps[0]];
      F.ExecOne(w, steps[0]);
    }
  }

  lemma DaemonLinked(sys: System, ls: D.Step)
    requires Linked(sys) && Enabled(sys, Daemon(ls))
    ensures Linked(Next(sys, Daemon(ls)))
  {
    var next := Next(sys, Daemon(ls));
    D.ExecOne(sys.loop, ls);
    assert next.loop == D.Next(sys.loop, ls) && next.loop.sent == sys.loop.sent;
    var fs := FanPart(sys, Daemon(ls));
    if fs == [] {
      FanExecFrame(sys.fan, fs);
    } else {
      assert fs == [fs[0]];
      F.ExecOne(sys.fan, fs[0]);
    }
    forall i | 0 <= i < |next.conns| ensures ConnOk(next, i) {
      if i < |sys.conns| {
        assert ConnOk(sys, i);
      } else {
        NoneSent(sys.loop.sent, i);
      }
    }
  }

  lemma {:induction false} NoneSent(sent: seq<D.Tagged>, i: nat)
    requires forall t | t in sent :: t.conn < i
    ensures D.Only(sent, i) == []
  {
    if sent != [] {
      assert sent[0] in sent;
      NoneSent(sent[1..], i);
    }
  }

  lemma DeliverLinked(sys: System, i: nat, bytes: seq<byte>)
    requires Linked(sys) && i < |sys.conns| && Enabled(sys, Deliver(i, bytes))
    ensures Linked(Next(sys, Deliver(i, bytes)))
  {
    var next := Next(sys, Deliver(i, bytes));
    assert ConnOk(sys, i);
    DecodingMore(sys.conns[i], bytes);
    forall j | 0 <= j < |next.conns| ensures ConnOk(next, j) {
      assert ConnOk(sys, j);
    }
  }

  lemma DecodingMore(c: Conn, bytes: seq<byte>)
    requires Decoding(c)
    ensures Decoding(c.(arrived := c.arrived + bytes, buf := c.buf + bytes))
  {
    ParseSplit(c.arrived, bytes, MAX);
    ParseSplit(c.buf, bytes, MAX);
    var left := Parse(c.buf, MAX);
    if !left.failed {
      Reassociate(c.msgs, left.msgs, Parse(left.rest + bytes, MAX).msgs);
    }
  }

  lemma DecodingNext(c: Conn, m: Message, size: nat)
    requires Decoding(c) && ScanFront(c.buf, MAX) == Frame(m, size)
    ensures Decoding(c.(buf := c.buf[size..], msgs := c.msgs + [m]))
  {
    Reassociate(c.msgs, [m], Parse(c.buf[size..], MAX).msgs);
  }

  lemma HandleSends(sys: System, i: nat)
    requires i < |sys.conns| && Enabled(sys, Handle(i))
    ensures var l, l' := sys.loop, Next(sys, Handle(i)).loop;
      && l'.output == l.output && l'.accepted == l.accepted
      && l'.sent == (match ScanFront(sys.conns[i].buf, MAX)
                     case Frame(Push(p), _) => l.sent + [D.Tagged(i, p)]
                     case _ => l.sent)
  {
    var ls := LoopPart(sys, Handle(i));
    if ls != [] {
      assert ls == [ls[0]];
      D.ExecOne(sys.loop, ls[0]);
    }
  }

  lemma HandleLinked(sys: System, i: nat)
    requires Linked(sys) && i < |sys.conns| && Enabled(sys, Handle(i))
    ensures Linked(Next(sys, Handle(i)))
  {
    var next := Next(sys, Handle(i));
    FanExecFrame(sys.fan, FanPart(sys, Handle(i)));
    HandleSends(sys, i);
    forall j | 0 <= j < |next.conns| ensures ConnOk(next, j) {
      assert ConnOk(sys, j);
      match ScanFront(sys.conns[i].buf, MAX) {
        case Frame(m, size) =>
          if j == i {
            DecodingNext(sys.conns[i], m, size);
            PushesOfConcat(sys.conns[i].msgs, [m]);
            PushesOfOne(m);
          }
          if m.Push? {
            var t := D.Tagged(i, m.payload);
            D.OnlyConcat(sys.loop.sent, [t], j);
            OnlyOne(t, j);
          }
        case _ =>
      }
    }
  }

  lemma OnlyOne(t: D.Tagged, j: nat)
    ensures D.Only([t], j) == if t.conn == j then [t.chunk] else []
  {
    assert [t][1..] == [];
  }

  lemma LinkedStep(sys: System, s: Step)
    requires Linked(sys) && Enabled(sys, s)
    ensures Linked(Next(sys, s))
  {
    match s {
      case Daemon(ls) => DaemonLinked(sys, ls);
      case Deliver(i, bytes) => DeliverLinked(sys, i, bytes);
      case Handle(i) => HandleLinked(sys, i);
      case Client(fs) =>
        FanExecFrame(sys.fan, [fs]);
        ConnsSame(sys, Next(sys, s));
      case WriteLog => ConnsSame(sys, Next(sys, s));
    }
  }

  lemma ConnsSame(sys: System, next: System)
    requires Linked(sys) && next.conns == sys.conns && next.loop == sys.loop
    ensures forall i :: 0 <= i < |next.conns| ==> ConnOk(next, i)
  {
    forall i | 0 <= i < |next.conns| ensures ConnOk(next, i) {
      assert ConnOk(sys, i);
    }
  }

  lemma LoggedGrows(l: D.Loop, steps: seq<D.Step>)
    requires |steps| <= 1 && D.Exec(l, steps).Some?
    ensures l.logged <= D.Exec(l, steps).value.logged
  {
    if steps != [] {
      assert steps == [steps[0]];
      D.ExecOne(l, steps[0]);
    }
  }

  lemma LogLinkedStep(sys: System, s: Step)
    requires LogLinked(sys) && Enabled(sys, s)
    ensures LogLinked(Next(sys, s))
  {
    var next := Next(sys, s);
    LoggedGrows(sys.loop, LoopPart(sys, s));
    if s.WriteLog? {
      var logged := sys.loop.logged;
      assert logged[..sys.done + 1] == logged[..sys.done] + [logged[sys.done]];
      AppendAllSnoc(Rotate(sys.initial, sys.logCap), sys.logCap, logged[..sys.done], logged[sys.done]);
    } else {
      assert next.loop.logged[..sys.done] == sys.loop.logged[..sys.done];
    }
  }

  lemma {:induction false} RunsLinked(sys: System, steps: seq<Step>)
    requires Linked(sys) && LogLinked(sys) && Exec(sys, steps).Some?
    ensures var end := Exec(sys, steps).value;
      && Linked(end) && LogLinked(end)
      && end.initial == sys.initial && end.logCap == sys.logCap
    decreases |steps|
  {
    if steps != [] {
      LinkedStep(sys, steps[0]);
      LogLinkedStep(sys, steps[0]);
      RunsLinked(Next(sys, steps[0]), steps[1..]);
    }
  }

  // ------------------------------------------------ attaches and episodes

  /** The attaches among messages, by whether they decline the scrollback. */
  function AttachesOf(ms: seq<Message>): seq<bool> {
    if ms == [] then [] else (if ms[0].Attach? then [ms[0].skipRing] else []) + AttachesOf(ms[1..])
  }

  lemma {:induction false} AttachesOfConcat(a: seq<Message>, b: seq<Message>)
    ensures AttachesOf(a + b) == AttachesOf(a) + AttachesOf(b)
  {
    if a == [] {
      assert a + b == b;
    } else {
      assert (a + b)[1..] == a[1..] + b;
      AttachesOfConcat(a[1..], b);
      Reassociate(if a[0].Attach? then [a[0].skipRing] else [], AttachesOf(a[1..]), AttachesOf(b));
    }
  }

  lemma {:induction false} NoAttaches(ms: seq<Message>)
    requires forall m | m in ms :: !m.Attach?
    ensures AttachesOf(ms) == []
  {
    if ms != [] {
      assert ms[0] in ms;
      NoAttaches(ms[1..]);
    }
  }

  lemma AttachesOfOne(m: Message)
    ensures AttachesOf([m]) == if m.Attach? then [m.skipRing] else []
  {
    assert [m][1..] == [];
  }

  function Declined(episodes: seq<F.Episode>): seq<bool> {
    seq(|episodes|, i requires 0 <= i < |episodes| => episodes[i].skipRing)
  }

  /** Each client's attachments are the attaches its connection has sent. */
  ghost predicate AttachLinked(sys: System) {
    && |sys.conns| == |sys.fan.clients|
    && forall i :: 0 <= i < |sys.conns| ==> Declined(sys.fan.clients[i].episodes) == AttachesOf(sys.conns[i].msgs)
  }

  lemma FanDeclined(w: F.World, fs: F.Step, i: nat)
    requires F.Enabled(w, fs) && i < |w.clients|
    ensures i < |F.Next(w, fs).clients|
    ensures var now, before := Declined(F.Next(w, fs).clients[i].episodes), Declined(w.clients[i].episodes);
      now == if fs.Attaching? && fs.client == i then before + [fs.skipRing] else before
  {
  }

  lemma FanPartDeclined(w: F.World, part: seq<F.Step>, i: nat)
    requires |part| <= 1 && F.Exec(w, part).Some? && i < |w.clients|
    ensures var w' := F.Exec(w, part).value;
      && i < |w'.clients|
      && Declined(w'.clients[i].episodes) == Declined(w.clients[i].episodes)
         + (if part != [] && part[0].Attaching? && part[0].client == i then [part[0].skipRing] else [])
  {
    if part != [] {
      assert part == [part[0]];
      F.ExecOne(w, part[0]);
      FanDeclined(w, part[0], i);
    }
  }

  lemma AttachElsewhere(sys: System, s: Step, i: nat)
    requires Enabled(sys, s) && s != Handle(i) && i < |sys.conns| && i < |sys.fan.clients|
    ensures var next := Next(sys, s);
      && i < |next.conns| && next.conns[i].msgs == sys.conns[i].msgs
      && i < |next.fan.clients|
      && Declined(next.fan.clients[i].episodes) == Declined(sys.fan.clients[i].episodes)
  {
    var part := FanPart(sys, s);
    FanPartDeclined(sys.fan, part, i);
    assert part != [] && part[0].Attaching? ==> s == Handle(part[0].client);
  }

  lemma HandledFrame(sys: System, i: nat)
    requires Enabled(sys, Handle(i)) && i < |sys.conns|
    ensures var front, conns := ScanFront(sys.conns[i].buf, MAX), Next(sys, Handle(i)).conns;
      && i < |conns|
      && conns[i].msgs == sys.conns[i].msgs + (if front.Frame? then [front.msg] else [])
  {
    assert sys.conns[i].msgs + [] == sys.conns[i].msgs;
  }

  lemma FrameDeclined(w: F.World, i: nat, front: Front)
    requires i < |w.clients| && F.Exec(w, HandleInFan(i, front)).Some?
    ensures var w' := F.Exec(w, HandleInFan(i, front)).value;
      && i < |w'.clients|
      && Declined(w'.clients[i].episodes)
         == Declined(w.clients[i].episodes) + AttachesOf(if front.Frame? then [front.msg] else [])
  {
    FanPartDeclined(w, HandleInFan(i, front), i);
    if front.Frame? {
      AttachesOfOne(front.msg);
    }
  }

  lemma AttachHandled(sys: System, i: nat)
    requires Enabled(sys, Handle(i)) && i < |sys.conns| && i < |sys.fan.clients|
    requires Declined(sys.fan.clients[i].episodes) == AttachesOf(sys.conns[i].msgs)
    ensures var next := Next(sys, Handle(i));
      && i < |next.conns| && i < |next.fan.clients|
      && Declined(next.fan.clients[i].episodes) == AttachesOf(next.conns[i].msgs)
  {
    var front := ScanFront(sys.conns[i].buf, MAX);
    HandledFrame(sys, i);
    FrameDeclined(sys.fan, i, front);
    AttachesOfConcat(sys.conns[i].msgs, if front.Frame? then [front.msg] else []);
  }

  lemma AttachLinkedStep(sys: System, s: Step)
    requires Linked(sys) && AttachLinked(sys) && Enabled(sys, s)
    ensures AttachLinked(Next(sys, s))
  {
    var next := Next(sys, s);
    LinkedStep(sys, s);
    forall i | 0 <= i < |next.conns| ensures Declined(next.fan.clients[i].episodes) == AttachesOf(next.conns[i].msgs) {
      if i < |sys.conns| {
        if s == Handle(i) {
          AttachHandled(sys, i);
        } else {
          AttachElsewhere(sys, s, i);
        }
      } else {
        F.ExecOne(sys.fan, F.Connected);
        assert FanPart(sys, s) == [F.Connected];
      }
    }
  }

  lemma {:induction false} RunsAttachLinked(sys: System, steps: seq<Step>)
    requires Linked(sys) && AttachLinked(sys) && Exec(sys, steps).Some?
    ensures AttachLinked(Exec(sys, steps).value)
    decreases |steps|
  {
    if steps != [] {
      LinkedStep(sys, steps[0]);
      AttachLinkedStep(sys, steps[0]);
      RunsAttachLinked(Next(sys, steps[0]), steps[1..]);
    }
  }

  // ------------------------------------------------------- the main results

  /** A state some run from the start reaches. */
  ghost predicate Reached(sys: System, ringCap: nat, capacity: nat, logging: bool, initial: seq<byte>, logCap: nat,
                          steps: seq<Step>) {
    capacity >= 1 && Exec(Start(ringCap, capacity, logging, initial, logCap), steps) == Some(sys)
  }

  lemma ReachedOk(sys: System, ringCap: nat, capacity: nat, logging: bool, initial: seq<byte>, logCap: nat,
                  steps: seq<Step>)
    requires Reached(sys, ringCap, capacity, logging, initial, logCap, steps)
    ensures Linked(sys) && LogLinked(sys) && sys.initial == initial && sys.logCap == logCap
    ensures D.LoopOk(sys.loop) && sys.loop.logging == logging
    ensures F.WorldOk(sys.fan) && sys.fan.cap == ringCap
  {
    var start := Start(ringCap, capacity, logging, initial, logCap);
    RunsLinked(start, steps);
    RunsProject(start, steps);
    LoopReached(logging, LoopTrace(start, steps));
    FanReached(ringCap, capacity, FanTrace(start, steps));
  }

  lemma LoopReached(logging: bool, steps: seq<D.Step>)
    requires D.Exec(D.Fresh(logging), steps).Some?
    ensures var l := D.Exec(D.Fresh(logging), steps).value; D.LoopOk(l) && l.logging == logging
  {
    D.RunsOk(D.Fresh(logging), steps);
    D.LoggingConstant(D.Fresh(logging), steps);
  }

  lemma FanReached(ringCap: nat, capacity: nat, steps: seq<F.Step>)
    requires capacity >= 1 && F.Exec(F.Initial(ringCap, capacity), steps).Some?
    ensures var w := F.Exec(F.Initial(ringCap, capacity), steps).value; F.WorldOk(w) && w.cap == ringCap
  {
    F.RunsOk(F.Initial(ringCap, capacity), steps);
    F.CapConstant(F.Initial(ringCap, capacity), steps);
  }

  /** Three views of one history, at every moment of every run: scrollback is
      the newest output; every client was written an unbroken stretch of it;
      the log has been sent exactly it, and holds the part it has appended. */
  lemma ThreeViews(sys: System, ringCap: nat, capacity: nat, initial: seq<byte>, logCap: nat, steps: seq<Step>)
    requires Reached(sys, ringCap, capacity, true, initial, logCap, steps)
    ensures var output := sys.loop.output;
      && sys.fan.ring == LastN(Flatten(output), ringCap)
      && (forall i, j :: 0 <= i < |sys.fan.clients| && 0 <= j < |sys.fan.clients[i].episodes| ==>
            var e := sys.fan.clients[i].episodes[j];
            e.from <= |output| && e.written <= F.Entitled(ringCap, output, e))
      && sys.loop.logged == output + (if sys.loop.phase.Finished? then [sys.loop.phase.marker] else [])
      && sys.done <= |sys.loop.logged|
      && sys.file == AppendAll(Rotate(initial, logCap), logCap, sys.loop.logged[..sys.done])
  {
    ReachedOk(sys, ringCap, capacity, true, initial, logCap, steps);
    var output := sys.loop.output;
    forall i, j | 0 <= i < |sys.fan.clients| && 0 <= j < |sys.fan.clients[i].episodes|
      ensures var e := sys.fan.clients[i].episodes[j];
        e.from <= |output| && e.written <= F.Entitled(ringCap, output, e)
    {
      assert F.ClientOk(sys.fan.cap, sys.fan.ch, sys.fan.history, sys.fan.clients[i]);
      assert F.EpisodeOk(sys.fan.cap, sys.fan.history, sys.fan.clients[i].episodes[j]);
      F.EntitledIsTail(sys.fan.cap, sys.fan.history, sys.fan.clients[i].episodes[j]);
    }
  }

  /** At every moment of every run, and so after a shutdown that drained the
      writer: the file is one rotation of all the log was given, if and only if
      no append started the log on a stray byte; and in any case if what the
      log was given holds no such byte. */
  lemma LogIsOneRotation(sys: System, ringCap: nat, capacity: nat, initial: seq<byte>, logCap: nat, steps: seq<Step>)
    requires Reached(sys, ringCap, capacity, true, initial, logCap, steps)
    ensures sys.done <= |sys.loop.logged|
    ensures var chunks := sys.loop.logged[..sys.done];
      var h := initial + Flatten(chunks);
      && (sys.file == Rotate(h, logCap) <==> StrayStart(initial, logCap, chunks) == None)
      && ((forall s: nat :: !StrayAt(h, logCap, s)) ==> sys.file == Rotate(h, logCap))
  {
    ThreeViews(sys, ringCap, capacity, initial, logCap, steps);
    var chunks := sys.loop.logged[..sys.done];
    ChunkingIndependence(initial, logCap, chunks);
    AppendAllHolds(initial, logCap, chunks);
  }

  /** After a shutdown that drained the writer, whatever the child was in the
      middle of writing: the log is one rotation of the initial content, all
      output and the end marker. With room for the marker it is the marker
      after a part of the output that starts between tokens and replays as all
      of the output does; and if the marker is acceptable where the output
      stopped, the whole log replays as the whole recording does. */
  lemma LogAfterShutdown(g: Grammar, sys: System, ringCap: nat, capacity: nat, initial: seq<byte>, logCap: nat,
                         steps: seq<Step>)
    requires Reached(sys, ringCap, capacity, true, initial, logCap, steps)
    requires sys.loop.phase.Finished? && sys.done == |sys.loop.logged|
    requires Accepted(g, initial + Flatten(sys.loop.output)) && logCap >= 3
    requires sys.loop.phase.marker != [] ==> !IsContinuation(sys.loop.phase.marker[0])
    ensures var h, marker := initial + Flatten(sys.loop.output), sys.loop.phase.marker;
      && sys.file == Rotate(h + marker, logCap)
      && (g.csiLimit <= ESCAPE_LOOKBACK + 1 && logCap >= |marker| + 3 ==>
            var c := Cut(h + marker, logCap);
            && c <= |h| && sys.file == h[c..] + marker
            && ModeAt(g, h, c) == Ground && Run(g, Ground, h[c..]) == Run(g, Ground, h))
      && (g.csiLimit <= ESCAPE_LOOKBACK + 1 && Accepted(g, h + marker) ==>
            Run(g, Ground, sys.file) == Run(g, Ground, h + marker))
    ensures sys.loop.phase.reason == D.ChildExited ==> Flatten(sys.loop.output) == sys.loop.produced
  {
    ThreeViews(sys, ringCap, capacity, initial, logCap, steps);
    ReachedOk(sys, ringCap, capacity, true, initial, logCap, steps);
    var output, marker := sys.loop.output, sys.loop.phase.marker;
    assert sys.loop.logged[..sys.done] == output + [marker];
    ReplayAcrossBreak(g, initial, logCap, output, marker);
    var whole := initial + Flatten(output) + marker;
    if g.csiLimit <= ESCAPE_LOOKBACK + 1 && Accepted(g, whole) {
      CutBetweenTokens(g, whole, logCap);
      ReplayFromGround(g, whole, Cut(whole, logCap));
    }
    assert Flatten(output) + [] == Flatten(output);
  }

  /** What the loop has taken from one connection, in order. */
  function TakenFrom(sys: System, i: nat): seq<byte> {
    Flatten(D.Only(sys.loop.dequeued, i))
  }

  /** If what a connection sends is the encoding of `ms`, all within the
      decoder's limit, then at every moment the loop has taken a prefix of the
      bytes they push, and all of them once everything has arrived, been
      handled and been taken from the queue. When every write drained in time
      and no other connection pushed, that is what the pty was typed. */
  lemma PushesArriveInOrder(sys: System, ringCap: nat, capacity: nat, logging: bool, initial: seq<byte>, logCap: nat,
                            steps: seq<Step>, i: nat, ms: seq<Message>, coming: seq<byte>)
    requires Reached(sys, ringCap, capacity, logging, initial, logCap, steps) && i < |sys.conns|
    requires sys.conns[i].arrived + coming == WireAll(ms)
    requires AllFit(ms, MAX)
    ensures TakenFrom(sys, i) <= PushedBytes(ms)
    ensures AllTaken(sys, i, coming) ==> TakenFrom(sys, i) == PushedBytes(ms)
    ensures WholeFrom(sys.loop, i) ==>
      && sys.loop.typed <= PushedBytes(ms)
      && (AllTaken(sys, i, coming) && !sys.loop.phase.Draining? ==> sys.loop.typed == PushedBytes(ms))
  {
    ReachedOk(sys, ringCap, capacity, logging, initial, logCap, steps);
    assert ConnOk(sys, i);
    MessagesArriveInOrder(sys.conns[i], ms, coming);
    TakenInOrder(sys, i);
    TypedFrom(sys, i, PushedBytes(ms));
  }

  /** What the loop has taken from a connection and what waits in the queue
      are the pushes the connection's task has handled. */
  lemma TakenInOrder(sys: System, i: nat)
    requires D.LoopOk(sys.loop) && i < |sys.conns| && ConnOk(sys, i)
    ensures TakenFrom(sys, i) + Flatten(D.Only(sys.loop.pushes, i)) == PushedBytes(sys.conns[i].msgs)
  {
    PushesSpell(sys.conns[i].msgs);
    D.OnlyConcat(sys.loop.dequeued, sys.loop.pushes, i);
    FlattenConcat(D.Only(sys.loop.dequeued, i), D.Only(sys.loop.pushes, i));
  }

  /** No write to the pty was cut short and only connection `i` pushed. */
  ghost predicate WholeFrom(l: D.Loop, i: nat) {
    && (forall k :: 0 <= k < |l.drained| && k < |l.dequeued| ==> l.drained[k] == |l.dequeued[k].chunk|)
    && (forall t | t in l.dequeued :: t.conn == i)
  }

  lemma {:induction false} OnlyAll(chunks: seq<D.Tagged>, i: nat)
    requires forall t | t in chunks :: t.conn == i
    ensures D.Only(chunks, i) == D.Payloads(chunks)
  {
    if chunks != [] {
      assert chunks[0] in chunks;
      OnlyAll(chunks[1..], i);
      assert D.Payloads(chunks) == [chunks[0].chunk] + D.Payloads(chunks[1..]);
    }
  }

  /** Then the pty was typed what the loop took from it, but for a write still
      in flight. */
  lemma TypedWhole(sys: System, i: nat)
    requires D.InputOk(sys.loop) && WholeFrom(sys.loop, i)
    ensures sys.loop.typed <= TakenFrom(sys, i)
    ensures !sys.loop.phase.Draining? ==> sys.loop.typed == TakenFrom(sys, i)
  {
    var l := sys.loop;
    var n := |l.drained|;
    assert l.dequeued == l.dequeued[..n] + l.dequeued[n..];
    D.DeliveredIgnoresRest(l.dequeued[..n], l.dequeued[n..], l.drained);
    D.WholeChunksDelivered(l.dequeued[..n], l.drained);
    OnlyAll(l.dequeued, i);
    FlattenCut(D.Payloads(l.dequeued), n);
    assert D.Payloads(l.dequeued)[..n] == D.Payloads(l.dequeued[..n]);
    if !l.phase.Draining? {
      assert D.Payloads(l.dequeued)[n..] == [];
      assert l.typed + [] == l.typed;
    }
  }

  /** All of connection `i`'s bytes have arrived, been handled and been taken. */
  predicate AllTaken(sys: System, i: nat, coming: seq<byte>)
    requires i < |sys.conns|
  {
    coming == [] && sys.conns[i].buf == [] && D.Only(sys.loop.pushes, i) == []
  }

  /** What the pty was typed, given that the loop takes `whole` from `i`. */
  lemma TypedFrom(sys: System, i: nat, whole: seq<byte>)
    requires D.InputOk(sys.loop) && TakenFrom(sys, i) <= whole
    ensures WholeFrom(sys.loop, i) ==>
      && sys.loop.typed <= whole
      && (TakenFrom(sys, i) == whole && !sys.loop.phase.Draining? ==> sys.loop.typed == whole)
  {
    if WholeFrom(sys.loop, i) {
      TypedWhole(sys, i);
    }
  }

  lemma MessagesArriveInOrder(c: Conn, ms: seq<Message>, coming: seq<byte>)
    requires Decoding(c) && c.arrived + coming == WireAll(ms)
    requires AllFit(ms, MAX)
    ensures c.msgs <= ms && PushedBytes(c.msgs) <= PushedBytes(ms)
    ensures coming == [] && c.buf == [] ==> c.msgs == ms
  {
    PrefixOfStream(ms, c.arrived, coming, MAX);
    assert c.msgs <= c.msgs + Parse(c.buf, MAX).msgs <= ms;
    PushedPrefix(c.msgs, ms);
  }

  /** Keystrokes, end to end: whatever the user typed before the detach or
      suspend character is what the daemon takes from that connection, and what
      the program behind the pty is typed. */
  lemma KeystrokesEndToEnd(sys: System, ringCap: nat, capacity: nat, logging: bool, initial: seq<byte>, logCap: nat,
                           steps: seq<Step>, i: nat, coming: seq<byte>, o: Attaching.Options,
                           events: seq<Attaching.Event>, outcome: Option<Attaching.Outcome>)
    requires Reached(sys, ringCap, capacity, logging, initial, logCap, steps) && i < |sys.conns|
    requires Attaching.RunOver(events, outcome, o)
    requires sys.conns[i].arrived + coming == WireAll(Attaching.Sent(events, outcome, o))
    ensures var input := Attaching.InputOf(events);
      var kept := input[..Attaching.FirstSpecial(input, o)];
      && TakenFrom(sys, i) <= kept
      && (AllTaken(sys, i, coming) ==> TakenFrom(sys, i) == kept)
      && (WholeFrom(sys.loop, i) ==>
            && sys.loop.typed <= kept
            && (AllTaken(sys, i, coming) && !sys.loop.phase.Draining? ==> sys.loop.typed == kept))
  {
    var ms := Attaching.Sent(events, outcome, o);
    Attaching.SentFits(events, outcome, o);
    Attaching.InputConserved(events, outcome, o);
    Attaching.SentPushes(events, outcome, o);
    PushesArriveInOrder(sys, ringCap, capacity, logging, initial, logCap, steps, i, ms, coming);
  }

  /** `hytch push`, end to end: standard input is what the daemon takes. */
  lemma PushEndToEnd(sys: System, ringCap: nat, capacity: nat, logging: bool, initial: seq<byte>, logCap: nat,
                     steps: seq<Step>, i: nat, coming: seq<byte>, stdin: seq<Chunk>)
    requires Reached(sys, ringCap, capacity, logging, initial, logCap, steps) && i < |sys.conns|
    requires forall k :: 0 <= k < |stdin| ==> |stdin[k]| <= Pushing.PUSH_CHUNK_SIZE
    requires sys.conns[i].arrived + coming == WireAll(Pushing.Frames(stdin))
    ensures TakenFrom(sys, i) <= Flatten(stdin)
    ensures AllTaken(sys, i, coming) ==> TakenFrom(sys, i) == Flatten(stdin)
    ensures WholeFrom(sys.loop, i) ==>
      && sys.loop.typed <= Flatten(stdin)
      && (AllTaken(sys, i, coming) && !sys.loop.phase.Draining? ==> sys.loop.typed == Flatten(stdin))
  {
    Pushing.FramesCarry(stdin);
    PushesArriveInOrder(sys, ringCap, capacity, logging, initial, logCap, steps, i, Pushing.Frames(stdin), coming);
  }

  // ------------------------------------------------------------- the screen

  /** An attach client asks for one attachment. */
  lemma OneAttach(events: seq<Attaching.Event>, outcome: Option<Attaching.Outcome>, o: Attaching.Options)
    requires Attaching.RunOver(events, outcome, o)
    ensures AttachesOf(Attaching.Sent(events, outcome, o)) == [o.skipRing]
  {
    var shake, body, end := Attaching.Handshake(o), Attaching.Transcript(events, o), Attaching.Farewell(outcome);
    Attaching.BodySteady(events, o);
    NoAttaches(body);
    NoAttaches(end);
    AttachesOfConcat(shake + body, end);
    AttachesOfConcat(shake, body);
    assert shake[1..][1..] == [];
  }

  lemma AttachesPrefix(got: seq<Message>, ms: seq<Message>)
    requires got <= ms
    ensures AttachesOf(got) <= AttachesOf(ms)
  {
    assert ms == got + ms[|got|..];
    AttachesOfConcat(got, ms[|got|..]);
  }

  /** Output, end to end: what an attached terminal shows is one unbroken
      stretch of the session's output, from the scrollback as it was at the
      attach, or from there on, with nothing left out or shown twice; and all
      of it once everything was taken, written and read. */
  lemma ScreenEndToEnd(sys: System, ringCap: nat, capacity: nat, logging: bool, initial: seq<byte>, logCap: nat,
                       steps: seq<Step>, i: nat, coming: seq<byte>, o: Attaching.Options,
                       events: seq<Attaching.Event>, outcome: Option<Attaching.Outcome>, unread: seq<byte>)
    requires Reached(sys, ringCap, capacity, logging, initial, logCap, steps)
    requires i < |sys.conns| && i < |sys.fan.clients|
    requires Attaching.RunOver(events, outcome, o)
    requires sys.conns[i].arrived + coming == WireAll(Attaching.Sent(events, outcome, o))
    requires Attaching.OutputOf(events) + unread == F.Shown(sys.fan.clients[i].episodes)
    ensures var screen, client := Attaching.OutputOf(events), sys.fan.clients[i];
      if client.episodes == [] then screen == []
      else
        var e := client.episodes[0];
        && |client.episodes| == 1 && e.skipRing == o.skipRing
        && e.from <= |sys.loop.output| && screen <= F.Entitled(ringCap, sys.loop.output, e)
        && (unread == [] && F.Idle(client) && client.attached.Some?
            && client.attached.value.from + client.attached.value.got == |sys.loop.output|
            ==> screen == F.Entitled(ringCap, sys.loop.output, e))
  {
    ReachedOk(sys, ringCap, capacity, logging, initial, logCap, steps);
    RunsAttachLinked(Start(ringCap, capacity, logging, initial, logCap), steps);
    assert ConnOk(sys, i);
    AttachedOnce(sys.conns[i], sys.fan.clients[i].episodes, coming, o, events, outcome);
    if sys.fan.clients[i].episodes != [] {
      ShownOnce(sys.fan, i);
    }
  }

  lemma AttachedOnce(c: Conn, episodes: seq<F.Episode>, coming: seq<byte>, o: Attaching.Options,
                     events: seq<Attaching.Event>, outcome: Option<Attaching.Outcome>)
    requires Decoding(c) && Declined(episodes) == AttachesOf(c.msgs)
    requires Attaching.RunOver(events, outcome, o)
    requires c.arrived + coming == WireAll(Attaching.Sent(events, outcome, o))
    ensures |episodes| <= 1 && (episodes != [] ==> episodes[0].skipRing == o.skipRing)
  {
    var ms := Attaching.Sent(events, outcome, o);
    Attaching.SentFits(events, outcome, o);
    MessagesArriveInOrder(c, ms, coming);
    OneAttach(events, outcome, o);
    AttachesPrefix(c.msgs, ms);
    assert |Declined(episodes)| == |episodes| <= 1;
    assert episodes != [] ==> Declined(episodes)[0] == o.skipRing;
  }

  lemma ShownOnce(w: F.World, i: nat)
    requires F.WorldOk(w) && i < |w.clients| && |w.clients[i].episodes| == 1
    ensures var e := w.clients[i].episodes[0];
      && F.Shown(w.clients[i].episodes) == e.written
      && e.from <= |w.history| && e.written <= F.Entitled(w.cap, w.history, e)
      && (F.Idle(w.clients[i]) && w.clients[i].attached.Some?
          && w.clients[i].attached.value.from + w.clients[i].attached.value.got == |w.history|
          ==> e.written == F.Entitled(w.cap, w.history, e))
  {
    var c := w.clients[i];
    assert F.Shown(c.episodes[..0]) == [];
    F.EpisodeIn(w, i, 0);
    F.EntitledIsTail(w.cap, w.history, c.episodes[0]);
    if F.Idle(c) && c.attached.Some? && c.attached.value.from + c.attached.value.got == |w.history| {
      F.CaughtUp(w, i);
    }
  }

  // ------------------------------------------------------------------- kill

  /** A kill stays fast in the whole system: once its signal is queued, the
      next things the loop does are the write in flight and the commands ahead
      of it, whatever clients, connections and the log do meanwhile. */
  lemma KillDelayEverywhere(sys: System, steps: seq<Step>, i: nat)
    requires D.Running(sys.loop) && i < |sys.loop.control|
    requires Exec(sys, steps).Some?
    requires D.LoopSteps(LoopTrace(sys, steps)) == D.InFlight(sys.loop) + i + 1
    ensures var l, l' := sys.loop, Exec(sys, steps).value.loop;
      && l'.applied == l.applied + l.control[..i + 1]
      && l'.dequeued == l.dequeued
      && |l'.drained| == |l.drained| + D.InFlight(l)
  {
    RunsProject(sys, steps);
    D.KillDelay(sys.loop, LoopTrace(sys, steps), i);
  }

  /** What handling a frame does, to the loop and to the client: a push joins
      the push queue, window sizes and signals the control queue, rows before
      columns and the signal as it is when it has a name, attach and detach and
      a malformed frame concern the client alone. */
  lemma HandleEffect(sys: System, i: nat)
    requires i < |sys.conns| && Enabled(sys, Handle(i))
    ensures var l, next := sys.loop, Next(sys, Handle(i));
      var l' := next.loop;
      && i < |sys.fan.clients| && i < |next.fan.clients|
      && var c, c' := sys.fan.clients[i], next.fan.clients[i];
      && l'.applied == l.applied && l'.dequeued == l.dequeued && l'.output == l.output && next.file == sys.file
      && match ScanFront(sys.conns[i].buf, MAX)
         case Frame(Push(p), _) => l'.pushes == l.pushes + [D.Tagged(i, p)] && l'.control == l.control && c' == c
         case Frame(Winch(rows, cols), _) =>
           l'.pushes == l.pushes && l'.control == l.control + [D.Resize(rows, cols)] && c' == c
         case Frame(Redraw(how, rows, cols), _) =>
           && l'.pushes == l.pushes && c' == c
           && l'.control == if how == NoRedraw then l.control else l.control + [D.Resize(rows, cols)]
         case Frame(Kill(signal), _) =>
           && l'.pushes == l.pushes && c' == c
           && l'.control == l.control + [D.Signal(if 1 <= signal <= 31 then signal else 15)]
         case Frame(Attach(skip), _) =>
           && l' == l && c'.open
           && (if skip then c'.attached == Some(F.Receiver(sys.fan.ch.pos, |sys.fan.history|, 0)) && c'.pending == []
               else c'.attached == c.attached && c'.pending == sys.fan.ring && c'.joining.Some?)
         case Frame(Detach, _) =>
           l' == l && c'.open && F.Unattached(c') && F.Shown(c'.episodes) == F.Shown(c.episodes)
         case Malformed => l' == l && !c'.open && F.Unattached(c')
         case Short => false
  {
    var front := ScanFront(sys.conns[i].buf, MAX);
    var ls, fs := HandleInLoop(i, front), HandleInFan(i, front);
    D.ExecOne(sys.loop, if ls == [] then D.HangUp else ls[0]);
    F.ExecOne(sys.fan, if fs == [] then F.Connected else fs[0]);
    assert ls == [] || ls == [ls[0]];
    assert fs == [] || fs == [fs[0]];
    if fs != [] {
      ClientEffect(sys.fan, i, fs[0]);
    }
  }

  lemma ClientEffect(w: F.World, i: nat, fs: F.Step)
    requires F.Enabled(w, fs) && F.OfClient(fs, i)
    ensures fs.Detaching? ==> var c' := F.Next(w, fs).clients[i];
      c'.open && F.Unattached(c') && F.Shown(c'.episodes) == F.Shown(w.clients[i].episodes)
    ensures fs.Dropping? ==> var c' := F.Next(w, fs).clients[i]; !c'.open && F.Unattached(c')
    ensures fs.Attaching? ==> var c, c' := w.clients[i], F.Next(w, fs).clients[i];
      && c'.open
      && (if fs.skipRing then c'.attached == Some(F.Receiver(w.ch.pos, |w.history|, 0)) && c'.pending == []
          else c'.attached == c.attached && c'.pending == w.ring && c'.joining.Some?)
  {
    match fs {
      case Detaching(_) => F.DetachEffect(w, i);
      case Dropping(_) => F.DropEffect(w, i);
      case Attaching(_, skip) => F.AttachEffect(w, i, skip);
      case _ =>
    }
  }

  /** A detach, end to end: once its frame is handled no output reaches the
      client until the connection sends another attach. */
  lemma DetachEndToEnd(sys: System, i: nat, steps: seq<Step>)
    requires i < |sys.conns| && Enabled(sys, Handle(i))
    requires var front := ScanFront(sys.conns[i].buf, MAX); front.Frame? && front.msg == Codec.Detach
    requires Exec(Next(sys, Handle(i)), steps).Some?
    requires i < |Exec(Next(sys, Handle(i)), steps).value.conns|
    requires var end := Exec(Next(sys, Handle(i)), steps).value;
      AttachesOf(end.conns[i].msgs) == AttachesOf(sys.conns[i].msgs)
    ensures var end := Exec(Next(sys, Handle(i)), steps).value;
      && i < |sys.fan.clients| && i < |end.fan.clients|
      && F.Unattached(end.fan.clients[i])
      && F.Shown(end.fan.clients[i].episodes) == F.Shown(sys.fan.clients[i].episodes)
  {
    var detached := Next(sys, Handle(i));
    HandleEffect(sys, i);
    HandledFrame(sys, i);
    AttachesOfConcat(sys.conns[i].msgs, [Codec.Detach]);
    AttachesOfOne(Codec.Detach);
    NoAttachTrace(detached, steps, i);
    RunsProject(detached, steps);
    F.SilentUntilAttach(detached.fan, FanTrace(detached, steps), i);
  }

  lemma {:induction false} AttachesGrow(sys: System, steps: seq<Step>, i: nat)
    requires i < |sys.conns| && Exec(sys, steps).Some?
    ensures var end := Exec(sys, steps).value;
      i < |end.conns| && |AttachesOf(end.conns[i].msgs)| >= |AttachesOf(sys.conns[i].msgs)|
    decreases |steps|
  {
    if steps != [] {
      AttachSent(sys, steps[0], i);
      AttachesGrow(Next(sys, steps[0]), steps[1..], i);
    }
  }

  /** A step attaches client `i` exactly when its connection sends an attach. */
  lemma AttachSent(sys: System, s: Step, i: nat)
    requires i < |sys.conns| && Enabled(sys, s)
    ensures var next, part := Next(sys, s), FanPart(sys, s);
      && i < |next.conns|
      && (if exists t :: t in part && t.Attaching? && t.client == i
          then |AttachesOf(next.conns[i].msgs)| == |AttachesOf(sys.conns[i].msgs)| + 1
          else AttachesOf(next.conns[i].msgs) == AttachesOf(sys.conns[i].msgs))
  {
    var part := FanPart(sys, s);
    if s == Handle(i) {
      var front := ScanFront(sys.conns[i].buf, MAX);
      HandledFrame(sys, i);
      AttachesOfConcat(sys.conns[i].msgs, if front.Frame? then [front.msg] else []);
      if front.Frame? {
        AttachesOfOne(front.msg);
        assert front.msg.Attach? ==> part[0] in part;
      }
    }
  }

  lemma {:induction false} NoAttachTrace(sys: System, steps: seq<Step>, i: nat)
    requires i < |sys.conns| && Exec(sys, steps).Some?
    requires i < |Exec(sys, steps).value.conns|
    requires AttachesOf(Exec(sys, steps).value.conns[i].msgs) == AttachesOf(sys.conns[i].msgs)
    ensures forall t | t in FanTrace(sys, steps) :: !(t.Attaching? && t.client == i)
    decreases |steps|
  {
    if steps != [] {
      var next := Next(sys, steps[0]);
      AttachSent(sys, steps[0], i);
      AttachesGrow(next, steps[1..], i);
      NoAttachTrace(next, steps[1..], i);
    }
  }

  /** Handling a kill queues its signal behind at most 15 commands, and after
      those and the write in flight, whatever else happens, the signal is what
      the loop applies next; no push chunk is dequeued before. */
  lemma KillHandled(sys: System, i: nat, signal: byte, after: seq<Step>)
    requires D.Running(sys.loop) && Enabled(sys, Handle(i))
    requires var front := ScanFront(sys.conns[i].buf, MAX); front.Frame? && front.msg == Kill(signal)
    ensures |sys.loop.control| < 16
    ensures var queued := Next(sys, Handle(i));
      Exec(queued, after).Some?
      && D.LoopSteps(LoopTrace(queued, after)) == D.InFlight(sys.loop) + |sys.loop.control| + 1 ==>
        var l, l' := sys.loop, Exec(queued, after).value.loop;
        && l'.applied == l.applied + l.control + [D.Signal(if 1 <= signal <= 31 then signal else 15)]
        && l'.dequeued == l.dequeued
  {
    var next, queued := Next(sys, Handle(i)), D.QueueControl(D.Signal(SignalOf(signal)));
    D.ExecOne(sys.loop, queued);
    assert LoopPart(sys, Handle(i)) == [queued];
    assert next.loop == D.Next(sys.loop, queued);
    if Exec(next, after).Some?
       && D.LoopSteps(LoopTrace(next, after)) == D.InFlight(sys.loop) + |sys.loop.control| + 1 {
      KillDelayEverywhere(next, after, |sys.loop.control|);
      assert next.loop.control[..|sys.loop.control| + 1] == sys.loop.control + [D.Signal(SignalOf(signal))];
      Reassociate(sys.loop.applied, sys.loop.control, [D.Signal(SignalOf(signal))]);
    }
  }

  /** When a frame is handled: exactly when its client is between writes and
      the queue it needs has room. A push waits for the push queue, a command
      for the control queue, and nothing else waits. */
  lemma HandleExact(sys: System, i: nat)
    requires i < |sys.conns| && i < |sys.fan.clients|
    requires ScanFront(sys.conns[i].buf, MAX).Frame?
    ensures var m := ScanFront(sys.conns[i].buf, MAX).msg;
      Enabled(sys, Handle(i)) <==>
        && F.Idle(sys.fan.clients[i])
        && (m.Push? ==> |sys.loop.pushes| < 256)
        && (m.Winch? || m.Kill? || (m.Redraw? && m.how != NoRedraw) ==> |sys.loop.control| < 16)
  {
    var front := ScanFront(sys.conns[i].buf, MAX);
    var ls, fs := HandleInLoop(i, front), HandleInFan(i, front);
    D.ExecOne(sys.loop, if ls == [] then D.HangUp else ls[0]);
    F.ExecOne(sys.fan, if fs == [] then F.Connected else fs[0]);
    assert ls == [] || ls == [ls[0]];
    assert fs == [] || fs == [fs[0]];
  }

  /** How many frames of connection `i` a run handles. */
  function Handles(steps: seq<Step>, i: nat): nat {
    if steps == [] then 0 else (if steps[0] == Handle(i) then 1 else 0) + Handles(steps[1..], i)
  }

  lemma DeliveredFrames(buf: seq<byte>, bytes: seq<byte>)
    ensures Parse(buf, MAX).msgs <= Parse(buf + bytes, MAX).msgs
  {
    ParseSplit(buf, bytes, MAX);
  }

  lemma OthersLeaveFront(sys: System, s: Step, i: nat, ms: seq<Message>)
    requires Enabled(sys, s) && s != Handle(i)
    requires i < |sys.conns| && ms <= Parse(sys.conns[i].buf, MAX).msgs
    ensures var next := Next(sys, s);
      && i < |next.conns|
      && next.conns[i].msgs == sys.conns[i].msgs && ms <= Parse(next.conns[i].buf, MAX).msgs
  {
    if s.Deliver? && s.conn == i {
      DeliveredFrames(sys.conns[i].buf, s.bytes);
    }
  }

  lemma ParseFront(buf: seq<byte>, m: Message, ms: seq<Message>)
    requires [m] + ms <= Parse(buf, MAX).msgs
    ensures var front := ScanFront(buf, MAX);
      front.Frame? && front.msg == m && ms <= Parse(buf[front.size..], MAX).msgs
  {
    assert ([m] + ms)[0] == m && ([m] + ms)[1..] == ms;
    assert ms <= Parse(buf, MAX).msgs[1..];
  }

  lemma HandleTakesFront(sys: System, i: nat, ms: seq<Message>)
    requires Enabled(sys, Handle(i)) && i < |sys.conns| && ms <= Parse(sys.conns[i].buf, MAX).msgs
    requires ms != []
    ensures var next := Next(sys, Handle(i));
      && i < |next.conns|
      && next.conns[i].msgs == sys.conns[i].msgs + [ms[0]] && ms[1..] <= Parse(next.conns[i].buf, MAX).msgs
  {
    assert ms == [ms[0]] + ms[1..];
    ParseFront(sys.conns[i].buf, ms[0], ms[1..]);
  }

  lemma TakeOne(taken: seq<Message>, ms: seq<Message>, n: nat)
    requires n < |ms|
    ensures taken + [ms[0]] + ms[1..][..n] == taken + ms[..n + 1] && ms[1..][n..] == ms[n + 1..]
  {
    assert ms[..n + 1] == [ms[0]] + ms[1..][..n];
    Reassociate(taken, [ms[0]], ms[1..][..n]);
  }

  /** A connection's frames are handled in order, one at a time: a kill with
      `n` frames ahead of it in the buffer is the `n + 1`-th to be handled. */
  lemma {:induction false} HandledInOrder(sys: System, i: nat, ms: seq<Message>, steps: seq<Step>)
    requires i < |sys.conns| && ms <= Parse(sys.conns[i].buf, MAX).msgs
    requires Exec(sys, steps).Some?
    ensures Handles(steps, i) <= |ms| ==>
      var end := Exec(sys, steps).value;
      && i < |end.conns|
      && end.conns[i].msgs == sys.conns[i].msgs + ms[..Handles(steps, i)]
      && ms[Handles(steps, i)..] <= Parse(end.conns[i].buf, MAX).msgs
    decreases |steps|
  {
    if steps == [] {
      assert sys.conns[i].msgs + ms[..0] == sys.conns[i].msgs;
    } else if Handles(steps, i) <= |ms| {
      var s, next, n := steps[0], Next(sys, steps[0]), Handles(steps[1..], i);
      if s == Handle(i) {
        HandleTakesFront(sys, i, ms);
        HandledInOrder(next, i, ms[1..], steps[1..]);
        TakeOne(sys.conns[i].msgs, ms, n);
      } else {
        OthersLeaveFront(sys, s, i, ms);
        HandledInOrder(next, i, ms, steps[1..]);
      }
    }
  }

  /** A kill, end to end. It is handled when the frames ahead of it on its own
      connection have been and the control queue has room; from then on only
      the write in flight and the commands queued before it come first, at most
      15 of them, and no push chunk is dequeued. */
  lemma KillEndToEnd(sys: System, i: nat, ms: seq<Message>, signal: byte, before: seq<Step>, after: seq<Step>)
    requires i < |sys.conns| && ms + [Kill(signal)] <= Parse(sys.conns[i].buf, MAX).msgs
    requires Exec(sys, before).Some? && Handles(before, i) == |ms|
    ensures var mid := Exec(sys, before).value;
      && i < |mid.conns| && mid.conns[i].msgs == sys.conns[i].msgs + ms
      && (i < |mid.fan.clients| ==>
            (Enabled(mid, Handle(i)) <==> F.Idle(mid.fan.clients[i]) && |mid.loop.control| < 16))
      && (D.Running(mid.loop) && Enabled(mid, Handle(i)) ==>
            var queued := Next(mid, Handle(i));
            && |mid.loop.control| < 16
            && (Exec(queued, after).Some?
                && D.LoopSteps(LoopTrace(queued, after)) == D.InFlight(mid.loop) + |mid.loop.control| + 1 ==>
                  var end := Exec(queued, after).value.loop;
                  && end.applied
                     == mid.loop.applied + mid.loop.control + [D.Signal(if 1 <= signal <= 31 then signal else 15)]
                  && end.dequeued == mid.loop.dequeued))
  {
    var all, mid := ms + [Kill(signal)], Exec(sys, before).value;
    HandledInOrder(sys, i, all, before);
    assert all[..|ms|] == ms && all[|ms|..] == [Kill(signal)] + [];
    ParseFront(mid.conns[i].buf, Kill(signal), []);
    if i < |mid.fan.clients| {
      HandleExact(mid, i);
      if D.Running(mid.loop) && Enabled(mid, Handle(i)) {
        KillHandled(mid, i, signal, after);
      }
    }
  }

  /** So a kill can wait behind bulk data after all, on its own connection:
      with a push ahead of it and the push queue full, nothing more of the
      connection is handled until the loop takes a chunk from that queue. */
  lemma {:induction false} KillStuckBehindPush(sys: System, i: nat, p: Chunk, size: nat, steps: seq<Step>)
    requires i < |sys.conns| && ScanFront(sys.conns[i].buf, MAX) == Frame(Push(p), size)
    requires |sys.loop.pushes| >= D.PUSH_CAPACITY
    requires Exec(sys, steps).Some? && Exec(sys, steps).value.loop.dequeued == sys.loop.dequeued
    ensures var end := Exec(sys, steps).value;
      i < |end.conns| && end.conns[i].msgs == sys.conns[i].msgs && Handles(steps, i) == 0
    decreases |steps|
  {
    if steps != [] {
      var next := Next(sys, steps[0]);
      NotDequeuedYet(sys, steps);
      QueueStaysFull(sys, steps[0]);
      PushStaysInFront(sys, steps[0], i, p, size);
      KillStuckBehindPush(next, i, p, size, steps[1..]);
    }
  }

  lemma NotDequeuedYet(sys: System, steps: seq<Step>)
    requires steps != [] && Exec(sys, steps).Some?
    requires Exec(sys, steps).value.loop.dequeued == sys.loop.dequeued
    ensures Next(sys, steps[0]).loop.dequeued == sys.loop.dequeued
  {
    var next := Next(sys, steps[0]);
    RunsProject(next, steps[1..]);
    D.AcceptsBeforePushes(next.loop, LoopTrace(next, steps[1..]));
    D.AcceptsBeforePushes(sys.loop, LoopPart(sys, steps[0]));
  }

  lemma QueueStaysFull(sys: System, s: Step)
    requires Enabled(sys, s) && |sys.loop.pushes| >= D.PUSH_CAPACITY
    requires Next(sys, s).loop.dequeued == sys.loop.dequeued
    ensures |Next(sys, s).loop.pushes| >= D.PUSH_CAPACITY
  {
    var part := LoopPart(sys, s);
    if part != [] {
      assert part == [part[0]];
      D.ExecOne(sys.loop, part[0]);
    }
  }

  lemma PushStaysInFront(sys: System, s: Step, i: nat, p: Chunk, size: nat)
    requires Enabled(sys, s) && |sys.loop.pushes| >= D.PUSH_CAPACITY
    requires i < |sys.conns| && ScanFront(sys.conns[i].buf, MAX) == Frame(Push(p), size)
    ensures s != Handle(i)
    ensures var next := Next(sys, s);
      && i < |next.conns| && next.conns[i].msgs == sys.conns[i].msgs
      && ScanFront(next.conns[i].buf, MAX) == Frame(Push(p), size)
  {
    if s == Handle(i) {
      HandleExact(sys, i);
    } else if s.Deliver? && s.conn == i {
      ScanFrontStable(sys.conns[i].buf, s.bytes, MAX);
    }
  }
}
