/** The daemon's event loop: one task owns the pty, and a biased select decides
    what it does next. */
module DaemonLoop {
  import opened Bytes

  const CONTROL_CAPACITY: nat := 16
  const PUSH_CAPACITY: nat := 256
  const READ_SIZE: nat := 4096

  datatype Command = Resize(rows: u16, cols: u16) | Signal(number: byte)

  datatype Reason = ChildExited | DaemonSignaled

  /** `Draining`: a push chunk is being written to the pty, for a bounded time.
      `Reaping`: the pty hung up and the child's exit is awaited. `Finished`:
      the end marker has been sent to the log. */
  datatype Phase =
    | Selecting
    | Draining(chunk: Chunk)
    | Reaping
    | Stopped(reason: Reason)
    | Finished(reason: Reason, marker: Chunk)

  /** A chunk and the connection that pushed it. */
  datatype Tagged = Tagged(conn: nat, chunk: Chunk)

  /** The loop's queues, the pty, and what the loop has done with them. From
      `accepted` on, fields only record: no step of the loop depends on them.
      `logged` is the queue the log writer reads. */
  datatype Loop = Loop(
    phase: Phase,
    control: seq<Command>,
    pushes: seq<Tagged>,
    unread: seq<byte>,
    hup: bool,
    waiting: nat,
    signaled: bool,
    logging: bool,
    accepted: nat,
    applied: seq<Command>,
    typed: seq<byte>,
    output: seq<Chunk>,
    logged: seq<Chunk>,
    issued: seq<Command>,
    sent: seq<Tagged>,
    dequeued: seq<Tagged>,
    drained: seq<nat>,
    produced: seq<byte>)

  function Fresh(logging: bool): Loop {
    Loop(Selecting, [], [], [], false, 0, false, logging, 0, [], [], [], [], [], [], [], [], [])
  }

  datatype Step =
    // the rest of the world
    | QueueControl(command: Command)
    | QueuePush(push: Tagged)
    | ChildWrites(bytes: seq<byte>)
    | HangUp
    | Arrive
    | Terminate
    // the loop's task
    | Select(count: nat)
    | Drain(count: nat)
    | Reap
    | Shutdown(marker: Chunk)

  /** The select's branches in priority order; `Nothing` when none is ready. */
  datatype Branch = TakeControl | ReadPty | Accept | TakePush | TakeSignal | Nothing

  function Choose(l: Loop): Branch {
    if l.control != [] then TakeControl
    else if l.unread != [] || l.hup then ReadPty
    else if l.waiting > 0 then Accept
    else if l.pushes != [] then TakePush
    else if l.signaled then TakeSignal
    else Nothing
  }

  predicate Enabled(l: Loop, s: Step) {
    match s
    case QueueControl(_) => |l.control| < CONTROL_CAPACITY
    case QueuePush(_) => |l.pushes| < PUSH_CAPACITY
    case ChildWrites(bytes) => bytes != [] && !l.hup
    case HangUp => !l.hup
    case Arrive => true
    case Terminate => true
    case Select(count) =>
      && l.phase == Selecting
      && Choose(l) != Nothing
      && (Choose(l) == ReadPty && l.unread != [] ==> 0 < count <= READ_SIZE && count <= |l.unread|)
    case Drain(count) => l.phase.Draining? && count <= |l.phase.chunk|
    case Reap => l.phase == Reaping
    case Shutdown(_) => l.phase.Stopped?
  }

  function SelectNext(l: Loop, count: nat): Loop
    requires Enabled(l, Select(count))
  {
    match Choose(l)
    case TakeControl => l.(control := l.control[1..], applied := l.applied + [l.control[0]])
    case ReadPty =>
      if l.unread == [] then l.(phase := Reaping)
      else
        var chunk := l.unread[..count];
        l.(unread := l.unread[count..],
           output := l.output + [chunk],
           logged := if l.logging then l.logged + [chunk] else l.logged)
    case Accept => l.(waiting := l.waiting - 1, accepted := l.accepted + 1)
    case TakePush =>
      l.(phase := Draining(l.pushes[0].chunk), pushes := l.pushes[1..], dequeued := l.dequeued + [l.pushes[0]])
    case TakeSignal => l.(phase := Stopped(DaemonSignaled))
    case Nothing => l
  }

  function Next(l: Loop, s: Step): Loop
    requires Enabled(l, s)
  {
    match s
    case QueueControl(c) => l.(control := l.control + [c], issued := l.issued + [c])
    case QueuePush(t) => l.(pushes := l.pushes + [t], sent := l.sent + [t])
    case ChildWrites(bytes) => l.(unread := l.unread + bytes, produced := l.produced + bytes)
    case HangUp => l.(hup := true)
    case Arrive => l.(waiting := l.waiting + 1)
    case Terminate => l.(signaled := true)
    case Select(count) => SelectNext(l, count)
    case Drain(count) =>
      l.(phase := Selecting, typed := l.typed + l.phase.chunk[..count], drained := l.drained + [count])
    case Reap => l.(phase := Stopped(ChildExited))
    case Shutdown(marker) =>
      l.(phase := Finished(l.phase.reason, marker), logged := if l.logging then l.logged + [marker] else l.logged)
  }

  function Exec(l: Loop, steps: seq<Step>): Option<Loop>
    decreases |steps|
  {
    if steps == [] then Some(l)
    else if Enabled(l, steps[0]) then Exec(Next(l, steps[0]), steps[1..])
    else None
  }

  lemma {:induction false} ExecConcat(l: Loop, a: seq<Step>, b: seq<Step>)
    requires Exec(l, a).Some?
    ensures Exec(l, a + b) == Exec(Exec(l, a).value, b)
    decreases |a|
  {
    if a == [] {
      assert a + b == b;
    } else {
      assert (a + b)[1..] == a[1..] + b;
      ExecConcat(Next(l, a[0]), a[1..], b);
    }
  }

  lemma ExecOne(l: Loop, s: Step)
    ensures Exec(l, []) == Some(l)
    ensures Exec(l, [s]) == if Enabled(l, s) then Some(Next(l, s)) else None
  {
    assert [s][1..] == [];
  }

  lemma ExecSnoc(l: Loop, steps: seq<Step>, s: Step)
    requires Exec(l, steps).Some? && Enabled(Exec(l, steps).value, s)
    ensures Exec(l, steps + [s]) == Some(Next(Exec(l, steps).value, s))
  {
    ExecConcat(l, steps, [s]);
    ExecOne(Exec(l, steps).value, s);
  }

  // ------------------------------------------------------- conservation

  /** What a run of writes put on the pty: a prefix of each chunk. */
  function Delivered(chunks: seq<Tagged>, counts: seq<nat>): seq<byte>
    requires |counts| <= |chunks|
    requires forall i :: 0 <= i < |counts| ==> counts[i] <= |chunks[i].chunk|
    decreases |counts|
  {
    if counts == [] then []
    else
      var last := |counts| - 1;
      Delivered(chunks, counts[..last]) + chunks[last].chunk[..counts[last]]
  }

  lemma {:induction false} DeliveredIgnoresRest(chunks: seq<Tagged>, more: seq<Tagged>, counts: seq<nat>)
    requires |counts| <= |chunks|
    requires forall i :: 0 <= i < |counts| ==> counts[i] <= |chunks[i].chunk|
    ensures Delivered(chunks + more, counts) == Delivered(chunks, counts)
    decreases |counts|
  {
    if counts != [] {
      DeliveredIgnoresRest(chunks, more, counts[..|counts| - 1]);
    }
  }

  /** Chunks one connection pushed, in order. */
  function Only(chunks: seq<Tagged>, conn: nat): seq<Chunk> {
    if chunks == [] then []
    else (if chunks[0].conn == conn then [chunks[0].chunk] else []) + Only(chunks[1..], conn)
  }

  lemma {:induction false} OnlyConcat(a: seq<Tagged>, b: seq<Tagged>, conn: nat)
    ensures Only(a + b, conn) == Only(a, conn) + Only(b, conn)
  {
    if a == [] {
      assert a + b == b;
    } else {
      assert (a + b)[1..] == a[1..] + b;
      OnlyConcat(a[1..], b, conn);
      Reassociate(if a[0].conn == conn then [a[0].chunk] else [], Only(a[1..], conn), Only(b, conn));
    }
  }

  ghost predicate InputOk(l: Loop) {
    && l.dequeued + l.pushes == l.sent
    && |l.dequeued| == |l.drained| + (if l.phase.Draining? then 1 else 0)
    && (l.phase.Draining? ==> l.phase.chunk == l.dequeued[|l.drained|].chunk)
    && (forall i :: 0 <= i < |l.drained| ==> l.drained[i] <= |l.dequeued[i].chunk|)
    && l.typed == Delivered(l.dequeued, l.drained)
  }

  ghost predicate LogOk(l: Loop) {
    l.logged == if !l.logging then [] else if l.phase.Finished? then l.output + [l.phase.marker] else l.output
  }

  ghost predicate OutputOk(l: Loop) {
    && Flatten(l.output) + l.unread == l.produced
    && LogOk(l)
    && (HungUp(l.phase) ==> l.hup && l.unread == [])
  }

  /** The loop has seen the hang-up, so it has read everything before it. */
  predicate HungUp(p: Phase) {
    p == Reaping || p == Stopped(ChildExited) || (p.Finished? && p.reason == ChildExited)
  }

  ghost predicate ControlOk(l: Loop) {
    l.applied + l.control == l.issued && |l.control| <= CONTROL_CAPACITY && |l.pushes| <= PUSH_CAPACITY
  }

  ghost predicate LoopOk(l: Loop) {
    ControlOk(l) && InputOk(l) && OutputOk(l)
  }

  lemma TakePushOk(l: Loop)
    requires InputOk(l) && l.phase == Selecting && l.pushes != []
    ensures InputOk(l.(phase := Draining(l.pushes[0].chunk), pushes := l.pushes[1..],
                       dequeued := l.dequeued + [l.pushes[0]]))
  {
    DeliveredIgnoresRest(l.dequeued, [l.pushes[0]], l.drained);
    assert l.dequeued + [l.pushes[0]] + l.pushes[1..] == l.sent;
  }

  lemma DrainOk(l: Loop, count: nat)
    requires InputOk(l) && Enabled(l, Drain(count))
    ensures InputOk(Next(l, Drain(count)))
  {
    var counts := l.drained + [count];
    assert counts[..|l.drained|] == l.drained;
  }

  lemma InputStep(l: Loop, s: Step)
    requires InputOk(l) && Enabled(l, s)
    ensures InputOk(Next(l, s))
  {
    match s {
      case Select(_) =>
        if Choose(l) == TakePush {
          TakePushOk(l);
        }
      case Drain(count) => DrainOk(l, count);
      case QueuePush(t) => Reassociate(l.dequeued, l.pushes, [t]);
      case _ =>
    }
  }

  lemma ReadOk(output: seq<Chunk>, unread: seq<byte>, count: nat)
    requires count <= |unread|
    ensures Flatten(output + [unread[..count]]) + unread[count..] == Flatten(output) + unread
  {
    FlattenSnoc(output, unread[..count]);
    assert unread[..count] + unread[count..] == unread;
    Reassociate(Flatten(output), unread[..count], unread[count..]);
  }

  lemma OutputStep(l: Loop, s: Step)
    requires OutputOk(l) && Enabled(l, s)
    ensures OutputOk(Next(l, s))
  {
    match s {
      case Select(count) =>
        if Choose(l) == ReadPty && l.unread != [] {
          ReadOk(l.output, l.unread, count);
        }
      case ChildWrites(bytes) =>
        Reassociate(Flatten(l.output), l.unread, bytes);
      case _ =>
    }
  }

  lemma ControlStep(l: Loop, s: Step)
    requires ControlOk(l) && Enabled(l, s)
    ensures ControlOk(Next(l, s))
  {
    match s {
      case QueueControl(c) => Reassociate(l.applied, l.control, [c]);
      case Select(_) =>
        if l.control != [] {
          assert l.applied + [l.control[0]] + l.control[1..] == l.applied + l.control;
        }
      case _ =>
    }
  }

  lemma NextOk(l: Loop, s: Step)
    requires LoopOk(l) && Enabled(l, s)
    ensures LoopOk(Next(l, s))
  {
    ControlStep(l, s);
    InputStep(l, s);
    OutputStep(l, s);
  }

  /** On every run, in every state: nothing queued, read or typed is lost,
      duplicated or reordered. */
  lemma {:induction false} RunsOk(l: Loop, steps: seq<Step>)
    requires LoopOk(l) && Exec(l, steps).Some?
    ensures LoopOk(Exec(l, steps).value)
    decreases |steps|
  {
    if steps != [] {
      NextOk(l, steps[0]);
      RunsOk(Next(l, steps[0]), steps[1..]);
    }
  }

  /** Pty input over whole runs: the pty was typed one prefix of each dequeued
      chunk, and each connection's chunks were dequeued in the order it sent
      them, none skipped. */
  lemma PtyInputConserved(logging: bool, steps: seq<Step>, conn: nat)
    requires Exec(Fresh(logging), steps).Some?
    ensures var l := Exec(Fresh(logging), steps).value;
      && |l.drained| <= |l.dequeued|
      && (forall i :: 0 <= i < |l.drained| ==> l.drained[i] <= |l.dequeued[i].chunk|)
      && l.typed == Delivered(l.dequeued, l.drained)
      && Only(l.sent, conn) == Only(l.dequeued, conn) + Only(l.pushes, conn)
  {
    RunsOk(Fresh(logging), steps);
    var l := Exec(Fresh(logging), steps).value;
    OnlyConcat(l.dequeued, l.pushes, conn);
  }

  /** Chunks that all drained in time reached the pty whole. */
  lemma {:induction false} WholeChunksDelivered(chunks: seq<Tagged>, counts: seq<nat>)
    requires |counts| == |chunks|
    requires forall i :: 0 <= i < |counts| ==> counts[i] == |chunks[i].chunk|
    ensures Delivered(chunks, counts) == Flatten(Payloads(chunks))
    decreases |counts|
  {
    if counts != [] {
      var last := |counts| - 1;
      WholeChunksDelivered(chunks[..last], counts[..last]);
      DeliveredIgnoresRest(chunks[..last], [chunks[last]], counts[..last]);
      assert chunks == chunks[..last] + [chunks[last]];
      assert Payloads(chunks) == Payloads(chunks[..last]) + [chunks[last].chunk];
      FlattenSnoc(Payloads(chunks[..last]), chunks[last].chunk);
    }
  }

  function Payloads(chunks: seq<Tagged>): seq<Chunk> {
    seq(|chunks|, i requires 0 <= i < |chunks| => chunks[i].chunk)
  }

  // ------------------------------------------------------- kill latency

  /** Iterations and write completions of the loop's task. */
  function LoopSteps(steps: seq<Step>): nat {
    if steps == [] then 0
    else (if steps[0].Select? || steps[0].Drain? then 1 else 0) + LoopSteps(steps[1..])
  }

  function Arrivals(steps: seq<Step>): nat {
    if steps == [] then 0
    else (if steps[0].QueueControl? then 1 else 0) + Arrivals(steps[1..])
  }

  /** Whether a push chunk is being written. */
  function InFlight(l: Loop): nat {
    if l.phase.Draining? then 1 else 0
  }

  predicate Running(l: Loop) {
    l.phase.Selecting? || l.phase.Draining?
  }

  /** The loop did `n` control commands of `l` and nothing else. */
  ghost predicate OnlyApplied(l: Loop, l': Loop, n: nat) {
    && Running(l') && n <= |l.control|
    && l'.applied == l.applied + l.control[..n]
    && l'.dequeued == l.dequeued && l'.output == l.output && l'.accepted == l.accepted
  }

  lemma OnlyAppliedMore(l: Loop, m: Loop, l': Loop, n: nat)
    requires l.control != [] && OnlyApplied(m, l', n)
    requires m.control == l.control[1..] && m.applied == l.applied + [l.control[0]]
    requires m.dequeued == l.dequeued && m.output == l.output && m.accepted == l.accepted
    ensures OnlyApplied(l, l', n + 1)
  {
    assert l.control[..n + 1] == [l.control[0]] + m.control[..n];
    Reassociate(l.applied, [l.control[0]], m.control[..n]);
  }

  lemma OnlyAppliedSame(l: Loop, m: Loop, l': Loop, n: nat)
    requires OnlyApplied(m, l', n) && n <= |l.control|
    requires l.control <= m.control && m.applied == l.applied
    requires m.dequeued == l.dequeued && m.output == l.output && m.accepted == l.accepted
    ensures OnlyApplied(l, l', n)
  {
    assert m.control[..n] == l.control[..n];
  }

  /** One step while a command waits: control goes first. */
  lemma ControlFirst(l: Loop, s: Step)
    requires Running(l) && l.control != [] && Enabled(l, s)
    ensures var m := Next(l, s);
      && Running(m)
      && m.dequeued == l.dequeued && m.output == l.output && m.accepted == l.accepted
      && |m.drained| == |l.drained| + (if s.Drain? then 1 else 0)
      && InFlight(m) == (if s.Drain? then 0 else InFlight(l))
      && (s.Drain? ==> InFlight(l) == 1) && (s.Select? ==> InFlight(l) == 0)
      && if s.Select? then m.control == l.control[1..] && m.applied == l.applied + [l.control[0]]
         else l.control <= m.control && m.applied == l.applied
  {
  }

  /** A command queued at position `i` while the loop runs is the `i + 1`-th
      thing the loop does, after at most the write in flight: until then no
      push chunk is dequeued and nothing else is done, whatever the backlog
      and whatever keeps arriving. */
  lemma {:induction false} KillDelay(l: Loop, steps: seq<Step>, i: nat)
    requires Running(l) && i < |l.control|
    requires Exec(l, steps).Some? && LoopSteps(steps) <= InFlight(l) + i + 1
    ensures var l', n := Exec(l, steps).value, LoopSteps(steps);
      && OnlyApplied(l, l', if n <= InFlight(l) then 0 else n - InFlight(l))
      && |l'.drained| == |l.drained| + (if n == 0 then 0 else InFlight(l))
    decreases |steps|
  {
    if LoopSteps(steps) == 0 {
      NoLoopSteps(l, steps);
    } else {
      var s, m := steps[0], Next(l, steps[0]);
      var l', n := Exec(m, steps[1..]).value, LoopSteps(steps[1..]);
      ControlFirst(l, s);
      if s.Select? {
        if i == 0 {
          NoLoopSteps(m, steps[1..]);
        } else {
          KillDelay(m, steps[1..], i - 1);
        }
        OnlyAppliedMore(l, m, l', n);
      } else {
        KillDelay(m, steps[1..], i);
        OnlyAppliedSame(l, m, l', if n <= InFlight(m) then 0 else n - InFlight(m));
      }
    }
  }

  lemma {:induction false} NoLoopSteps(l: Loop, steps: seq<Step>)
    requires Running(l) && Exec(l, steps).Some? && LoopSteps(steps) == 0
    ensures OnlyApplied(l, Exec(l, steps).value, 0) && Exec(l, steps).value.drained == l.drained
    decreases |steps|
  {
    if steps == [] {
      assert l.applied + l.control[..0] == l.applied;
    } else {
      NoLoopSteps(Next(l, steps[0]), steps[1..]);
      OnlyAppliedSame(l, Next(l, steps[0]), Exec(l, steps).value, 0);
    }
  }

  /** And while a command waits the loop is never blocked: there is always a
      next thing it can do, so the bound above is one on its progress. */
  lemma NeverBlockedWhileControlWaits(l: Loop)
    requires Running(l) && l.control != []
    ensures exists s: Step :: (s.Select? || s.Drain?) && Enabled(l, s)
  {
    if l.phase.Draining? {
      assert Enabled(l, Drain(0));
    } else {
      assert Enabled(l, Select(0));
    }
  }

  /** Once the select loop has been left, nothing queued is applied, read or
      dequeued any more: the bound above needs the loop to be running. */
  lemma {:induction false} NothingDoneAfterLoop(l: Loop, steps: seq<Step>)
    requires !Running(l) && Exec(l, steps).Some?
    ensures var l' := Exec(l, steps).value;
      && !Running(l')
      && l'.applied == l.applied && l'.output == l.output
      && l'.dequeued == l.dequeued && l'.typed == l.typed
    decreases |steps|
  {
    if steps != [] {
      NothingDoneAfterLoop(Next(l, steps[0]), steps[1..]);
    }
  }

  // -------------------------------------------------- the other priorities

  /** What the loop has done is never undone. */
  lemma {:induction false} DoneStays(l: Loop, steps: seq<Step>)
    requires Exec(l, steps).Some?
    ensures var l' := Exec(l, steps).value;
      && l.applied <= l'.applied && l.output <= l'.output && Flatten(l.output) <= Flatten(l'.output)
      && l.accepted <= l'.accepted && l.dequeued <= l'.dequeued
    decreases |steps|
  {
    if steps != [] {
      var m := Next(l, steps[0]);
      OneDone(l, steps[0]);
      DoneStays(m, steps[1..]);
    }
  }

  lemma OneDone(l: Loop, s: Step)
    requires Enabled(l, s)
    ensures var m := Next(l, s);
      && l.applied <= m.applied && l.output <= m.output && Flatten(l.output) <= Flatten(m.output)
      && l.accepted <= m.accepted && l.dequeued <= m.dequeued
      && l.accepted + l.waiting <= m.accepted + m.waiting
      && (m.output != l.output || m.accepted != l.accepted || m.dequeued != l.dequeued ==> l.control == [])
      && (m.accepted != l.accepted || m.dequeued != l.dequeued ==> l.unread == [] && !l.hup)
      && (m.dequeued != l.dequeued ==> l.waiting == 0)
  {
    if s.Select? && Choose(l) == ReadPty && l.unread != [] {
      FlattenSnoc(l.output, l.unread[..s.count]);
    }
  }

  /** Commands go first: by the time the loop has read output, accepted a
      client or dequeued a chunk, it has applied every command queued before. */
  lemma {:induction false} ControlBeforeAll(l: Loop, steps: seq<Step>)
    requires ControlOk(l) && Exec(l, steps).Some?
    ensures var l' := Exec(l, steps).value;
      l'.output != l.output || l'.accepted != l.accepted || l'.dequeued != l.dequeued ==> l.issued <= l'.applied
    decreases |steps|
  {
    if steps != [] {
      var m := Next(l, steps[0]);
      OneDone(l, steps[0]);
      ControlStep(l, steps[0]);
      RecordsGrow(l, steps[0]);
      DoneStays(m, steps[1..]);
      if l.control == [] {
        assert l.applied + [] == l.applied;
      } else {
        ControlBeforeAll(m, steps[1..]);
      }
    }
  }

  /** Output goes next: by the time it has accepted a client or dequeued a
      chunk, it has read everything the child had written before. */
  lemma {:induction false} OutputBeforeOthers(l: Loop, steps: seq<Step>)
    requires OutputOk(l) && Exec(l, steps).Some?
    ensures var l' := Exec(l, steps).value;
      l'.accepted != l.accepted || l'.dequeued != l.dequeued ==> l.produced <= Flatten(l'.output)
    decreases |steps|
  {
    if steps != [] {
      var m := Next(l, steps[0]);
      OneDone(l, steps[0]);
      OutputStep(l, steps[0]);
      RecordsGrow(l, steps[0]);
      DoneStays(m, steps[1..]);
      if l.unread == [] {
        assert Flatten(l.output) + [] == Flatten(l.output);
      } else {
        OutputBeforeOthers(m, steps[1..]);
      }
    }
  }

  /** Clients waiting to be accepted go before bulk data: by the time any push
      chunk is dequeued, all of them have been accepted. */
  lemma {:induction false} AcceptsBeforePushes(l: Loop, steps: seq<Step>)
    requires Exec(l, steps).Some?
    ensures var l' := Exec(l, steps).value;
      && l.dequeued <= l'.dequeued && l.accepted <= l'.accepted
      && l'.accepted + l'.waiting >= l.accepted + l.waiting
      && (l'.dequeued != l.dequeued ==> l'.accepted >= l.accepted + l.waiting)
    decreases |steps|
  {
    if steps != [] {
      OneDone(l, steps[0]);
      AcceptsBeforePushes(Next(l, steps[0]), steps[1..]);
    }
  }

  /** A termination signal goes last: the loop ends on it only after it has
      applied every command, read every byte and dequeued every chunk that had
      been queued before. */
  lemma {:induction false} SignalLast(l: Loop, steps: seq<Step>)
    requires LoopOk(l) && Running(l) && Exec(l, steps).Some?
    requires StoppedBySignal(Exec(l, steps).value.phase)
    ensures var l' := Exec(l, steps).value;
      l.issued <= l'.applied && l.sent <= l'.dequeued && l.produced <= Flatten(l'.output)
    decreases |steps|
  {
    var m := Next(l, steps[0]);
    if Running(m) {
      NextOk(l, steps[0]);
      RecordsGrow(l, steps[0]);
      SignalLast(m, steps[1..]);
    } else {
      NothingDoneAfterLoop(m, steps[1..]);
      LeavesLoop(l, steps[0]);
      if HungUp(m.phase) {
        HangUpStays(m, steps[1..]);
      } else {
        QueuesEmpty(l);
      }
    }
  }

  predicate StoppedBySignal(p: Phase) {
    p == Stopped(DaemonSignaled) || (p.Finished? && p.reason == DaemonSignaled)
  }

  lemma RecordsGrow(l: Loop, s: Step)
    requires Enabled(l, s)
    ensures var m := Next(l, s);
      l.issued <= m.issued && l.sent <= m.sent && l.produced <= m.produced
  {
  }

  lemma {:induction false} HangUpStays(l: Loop, steps: seq<Step>)
    requires HungUp(l.phase) && Exec(l, steps).Some?
    ensures HungUp(Exec(l, steps).value.phase)
    decreases |steps|
  {
    if steps != [] {
      HangUpStays(Next(l, steps[0]), steps[1..]);
    }
  }

  /** The loop is left on a hang-up, or on a signal with nothing else ready. */
  lemma LeavesLoop(l: Loop, s: Step)
    requires Running(l) && Enabled(l, s) && !Running(Next(l, s))
    ensures HungUp(Next(l, s).phase)
      || (Choose(l) == TakeSignal && Next(l, s) == l.(phase := Stopped(DaemonSignaled)))
  {
  }

  lemma QueuesEmpty(l: Loop)
    requires LoopOk(l) && Choose(l) == TakeSignal
    ensures l.applied == l.issued && l.dequeued == l.sent && Flatten(l.output) == l.produced
  {
    assert l.applied + [] == l.applied && l.dequeued + [] == l.dequeued;
    assert Flatten(l.output) + [] == Flatten(l.output);
  }

  // --------------------------------------------------------- dead child

  /** What the loop has left to do once the pty has hung up. */
  function Remaining(l: Loop): nat {
    if Running(l) then |l.control| + |l.unread| + 1 + InFlight(l) else 0
  }

  /** After a hang-up no push chunk is dequeued and no client accepted, and
      every iteration uses up a queued command or unread output: the loop
      stops after at most as many iterations as there were of those, plus the
      commands that still arrive. */
  lemma {:induction false} NoSpinAfterHangUp(l: Loop, steps: seq<Step>)
    requires l.hup && Exec(l, steps).Some?
    ensures var l' := Exec(l, steps).value;
      && LoopSteps(steps) + Remaining(l') <= Remaining(l) + Arrivals(steps)
      && l'.dequeued == l.dequeued && l'.accepted == l.accepted && l'.hup
      && (LoopSteps(steps) == Remaining(l) + Arrivals(steps) ==> !Running(l'))
    decreases |steps|
  {
    if steps != [] {
      NoSpinAfterHangUp(Next(l, steps[0]), steps[1..]);
    }
  }

  /** And until it stops it is never blocked. */
  lemma NeverBlockedAfterHangUp(l: Loop)
    requires l.hup && Running(l)
    ensures exists s: Step :: (s.Select? || s.Drain?) && Enabled(l, s)
  {
    if l.phase.Draining? {
      assert Enabled(l, Drain(0));
    } else if l.unread == [] {
      assert Enabled(l, Select(0));
    } else {
      assert Enabled(l, Select(1));
    }
  }

  /** By then every byte the child wrote has been fanned out. */
  lemma AllOutputBeforeExit(logging: bool, steps: seq<Step>)
    requires Exec(Fresh(logging), steps).Some?
    requires var l := Exec(Fresh(logging), steps).value;
      l.phase.Finished? && l.phase.reason == ChildExited
    ensures var l := Exec(Fresh(logging), steps).value;
      && Flatten(l.output) == l.produced
      && (logging ==> l.logged == l.output + [l.phase.marker])
  {
    RunsOk(Fresh(logging), steps);
    LoggingConstant(Fresh(logging), steps);
    var l := Exec(Fresh(logging), steps).value;
    assert HungUp(l.phase) && Flatten(l.output) + [] == Flatten(l.output);
  }

  lemma {:induction false} LoggingConstant(l: Loop, steps: seq<Step>)
    requires Exec(l, steps).Some?
    ensures Exec(l, steps).value.logging == l.logging
    decreases |steps|
  {
    if steps != [] {
      LoggingConstant(Next(l, steps[0]), steps[1..]);
    }
  }
}
