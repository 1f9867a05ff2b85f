/** The event loop as the daemon runs it: fields updated in place by one
    task, each iteration a run of the transition system. */
module EventLoops {
  import opened Bytes
  import opened Hubs
  import opened Wiring
  import D = DaemonLoop
  import F = FanoutRuns

  /** What one pass of the loop meets: what the world does before it, how many
      bytes a pty read returns, what the world does while a push write or the
      child's exit is awaited, and how many bytes drain in time. */
  datatype Tick = Tick(before: seq<D.Step>, count: nat, during: seq<D.Step>, drains: nat)

  predicate FromWorld(s: D.Step) {
    !s.Select? && !s.Drain? && !s.Reap? && !s.Shutdown?
  }

  function Least(a: nat, b: nat): nat {
    if a <= b then a else b
  }

  /** Whether the branch the select picks in `l` awaits something. */
  predicate Awaits(l: D.Loop) {
    D.Choose(l) == D.TakePush || (D.Choose(l) == D.ReadPty && l.unread == [])
  }

  /** The steps of one pass from `l`: the select and, when its branch awaits
      something, whatever the world does meanwhile and the end of the wait. */
  ghost predicate OnePass(l: D.Loop, count: nat, trace: seq<D.Step>) {
    && trace != [] && trace[0] == D.Select(count)
    && (forall i :: 1 <= i < |trace| - 1 ==> FromWorld(trace[i]))
    && (|trace| > 1 <==> Awaits(l))
    && (|trace| > 1 ==> var last := trace[|trace| - 1]; if D.Choose(l) == D.TakePush then last.Drain? else last.Reap?)
  }

  /** The state once whatever of `steps` can happen has. */
  function Happens(l: D.Loop, steps: seq<D.Step>): (r: D.Loop)
    ensures r.phase == l.phase
    decreases |steps|
  {
    if steps == [] then l
    else if FromWorld(steps[0]) && D.Enabled(l, steps[0]) then Happens(D.Next(l, steps[0]), steps[1..])
    else Happens(l, steps[1..])
  }

  /** A step happens exactly when it can, and one after the other. */
  lemma {:induction false} HappensExact(l: D.Loop, a: seq<D.Step>, s: D.Step)
    ensures Happens(l, []) == l
    ensures var m := Happens(l, a);
      Happens(l, a + [s]) == if FromWorld(s) && D.Enabled(m, s) then D.Next(m, s) else m
    decreases |a|
  {
    if a == [] {
      assert a + [s] == [s] && [s][1..] == [];
    } else {
      assert (a + [s])[1..] == a[1..] + [s];
      HappensExact(if FromWorld(a[0]) && D.Enabled(l, a[0]) then D.Next(l, a[0]) else l, a[1..], s);
    }
  }

  /** What the rest of the world does is none of what the loop does. */
  lemma {:induction false} HappensFrame(l: D.Loop, steps: seq<D.Step>)
    ensures var m := Happens(l, steps);
      && m.applied == l.applied && m.accepted == l.accepted && m.typed == l.typed && m.output == l.output
      && m.logged == l.logged && m.dequeued == l.dequeued && m.drained == l.drained
      && l.control <= m.control && l.pushes <= m.pushes && l.unread <= m.unread && m.logging == l.logging
    decreases |steps|
  {
    if steps != [] {
      HappensFrame(if FromWorld(steps[0]) && D.Enabled(l, steps[0]) then D.Next(l, steps[0]) else l, steps[1..]);
    }
  }

  /** One pass from `l`: where it leaves the loop, and why it ends if it does. */
  function Pass(l: D.Loop, tick: Tick): (D.Loop, Option<D.Reason>)
    requires D.Enabled(l, D.Select(tick.count))
  {
    var m := D.Next(l, D.Select(tick.count));
    match m.phase
    case Draining(chunk) => (D.Next(Happens(m, tick.during), D.Drain(Least(tick.drains, |chunk|))), None)
    case Reaping => (D.Next(Happens(m, tick.during), D.Reap), Some(D.ChildExited))
    case Stopped(reason) => (m, Some(reason))
    case _ => (m, None)
  }

  /** What a pass does, by what is waiting for the loop: a command, output, the
      hang-up, a client, a push chunk or a termination signal, in this order.
      Of a chunk it types what drains; meanwhile the world only adds to what is
      waiting. */
  lemma PassEffect(l: D.Loop, tick: Tick)
    requires D.Enabled(l, D.Select(tick.count))
    ensures var m := Pass(l, tick).0;
      && m.phase == (match Pass(l, tick).1 case None => D.Selecting case Some(r) => D.Stopped(r))
      && m.applied == l.applied + l.control[..if l.control != [] then 1 else 0]
      && (if l.control == [] && l.unread != [] then
            && m.output == l.output + [l.unread[..tick.count]] && m.unread == l.unread[tick.count..]
            && m.logged == (if l.logging then l.logged + [l.unread[..tick.count]] else l.logged)
          else m.output == l.output && l.unread <= m.unread && m.logged == l.logged)
      && m.accepted == l.accepted
           + (if l.control == [] && l.unread == [] && !l.hup && l.waiting > 0 then 1 else 0)
      && (if l.control == [] && l.unread == [] && !l.hup && l.waiting == 0 && l.pushes != [] then
            Typed(l, m, tick.drains)
          else m.dequeued == l.dequeued && m.typed == l.typed && m.drained == l.drained && l.pushes <= m.pushes)
    ensures Pass(l, tick).1 ==
      if l.control == [] && l.unread == [] && l.hup then Some(D.ChildExited)
      else if l.control == [] && l.unread == [] && l.waiting == 0 && l.pushes == [] then Some(D.DaemonSignaled)
      else None
  {
    HappensFrame(D.Next(l, D.Select(tick.count)), tick.during);
    assert l.applied + [] == l.applied;
  }

  lemma QuickPass(l: D.Loop, tick: Tick)
    requires D.Enabled(l, D.Select(tick.count)) && !Awaits(l)
    ensures var select, m := D.Select(tick.count), D.Next(l, D.Select(tick.count));
      && Pass(l, tick) == (m, if m.phase.Stopped? then Some(m.phase.reason) else None)
      && OnePass(l, tick.count, [select]) && D.Exec(l, [select]) == Some(m)
  {
    D.ExecOne(l, D.Select(tick.count));
  }

  /** The oldest chunk has left the queue and what drained of it was typed. */
  predicate Typed(l: D.Loop, m: D.Loop, drains: nat)
    requires l.pushes != []
  {
    var chunk := l.pushes[0].chunk;
    var k := if drains <= |chunk| then drains else |chunk|;
    && m.dequeued == l.dequeued + [l.pushes[0]] && l.pushes[1..] <= m.pushes
    && m.typed == l.typed + chunk[..k] && m.drained == l.drained + [k]
  }

  /** A tick: the world acts, and then there is one pass, unless nothing is
      ready. */
  function TickOf(l: D.Loop, tick: Tick): (D.Loop, Option<D.Reason>)
    requires l.phase == D.Selecting
  {
    var w := Happens(l, tick.before);
    if D.Enabled(w, D.Select(tick.count)) then Pass(w, tick) else (w, None)
  }

  lemma TickPhase(l: D.Loop, tick: Tick)
    requires l.phase == D.Selecting
    ensures TickOf(l, tick).0.phase == (match TickOf(l, tick).1 case None => D.Selecting case Some(r) => D.Stopped(r))
  {
    var w := Happens(l, tick.before);
    if D.Enabled(w, D.Select(tick.count)) {
      PassEffect(w, tick);
    }
  }

  /** A pass there is whenever something waits: a command, as many unread bytes
      as the read returns, the hang-up, a client, a push chunk or a signal. */
  lemma TickPasses(l: D.Loop, tick: Tick)
    requires l.phase == D.Selecting
    ensures var w := Happens(l, tick.before);
      var ready :=
        || w.control != []
        || (w.unread != [] && 0 < tick.count <= 4096 && tick.count <= |w.unread|)
        || (w.unread == [] && (w.hup || w.waiting > 0 || w.pushes != [] || w.signaled));
      if ready then D.Enabled(w, D.Select(tick.count)) && TickOf(l, tick) == Pass(w, tick)
      else TickOf(l, tick) == (w, None)
  {
  }

  /** The whole loop: tick by tick, until a pass ends it. */
  function RunOf(l: D.Loop, ticks: seq<Tick>): (D.Loop, Option<D.Reason>)
    requires l.phase == D.Selecting
    decreases |ticks|
  {
    if ticks == [] then (l, None)
    else
      var (m, reason) := TickOf(l, ticks[0]);
      TickPhase(l, ticks[0]);
      if reason.Some? then (m, reason) else RunOf(m, ticks[1..])
  }

  /** One tick after the other, up to the pass that ends the loop. */
  lemma {:induction false} RunOnward(l: D.Loop, a: seq<Tick>, t: Tick)
    requires l.phase == D.Selecting
    ensures RunOf(l, []) == (l, None)
    ensures var (m, reason) := RunOf(l, a);
      && (m.phase == D.Selecting <==> reason == None)
      && RunOf(l, a + [t]) == if m.phase == D.Selecting then TickOf(m, t) else (m, reason)
    decreases |a|
  {
    if a == [] {
      assert a + [t] == [t] && [t][1..] == [];
    } else {
      assert (a + [t])[1..] == a[1..] + [t];
      TickPhase(l, a[0]);
      if TickOf(l, a[0]).1 == None {
        RunOnward(TickOf(l, a[0]).0, a[1..], t);
      }
    }
  }

  /** No write of a run is cut short. */
  ghost predicate DrainsFully(l: D.Loop, ticks: seq<Tick>)
    requires l.phase == D.Selecting
    decreases |ticks|
  {
    ticks != [] ==>
      var w := Happens(l, ticks[0].before);
      var (m, reason) := TickOf(l, ticks[0]);
      TickPhase(l, ticks[0]);
      && (D.Choose(w) == D.TakePush ==> |w.pushes[0].chunk| <= ticks[0].drains)
      && (reason == None ==> DrainsFully(m, ticks[1..]))
  }

  /** Then the pty is typed whole chunks, in the order they were dequeued. */
  lemma {:induction false} RunTypesWhole(l: D.Loop, ticks: seq<Tick>) returns (taken: seq<D.Tagged>)
    requires l.phase == D.Selecting && DrainsFully(l, ticks)
    ensures var l' := RunOf(l, ticks).0;
      && l'.dequeued == l.dequeued + taken
      && l'.typed == l.typed + Flatten(D.Payloads(taken))
    decreases |ticks|
  {
    taken := [];
    if ticks != [] {
      var m := TickOf(l, ticks[0]).0;
      TickPhase(l, ticks[0]);
      var one := TickTypesWhole(l, ticks[0]);
      var rest := [];
      if TickOf(l, ticks[0]).1 == None {
        rest := RunTypesWhole(m, ticks[1..]);
      }
      taken := one + rest;
      TypedMore(l.dequeued, l.typed, one, rest);
    }
  }

  lemma TickTypesWhole(l: D.Loop, tick: Tick) returns (one: seq<D.Tagged>)
    requires l.phase == D.Selecting
    requires var w := Happens(l, tick.before); D.Choose(w) == D.TakePush ==> |w.pushes[0].chunk| <= tick.drains
    ensures var m := TickOf(l, tick).0;
      m.dequeued == l.dequeued + one && m.typed == l.typed + Flatten(D.Payloads(one))
  {
    var w := Happens(l, tick.before);
    HappensFrame(l, tick.before);
    one := [];
    if D.Enabled(w, D.Select(tick.count)) {
      PassEffect(w, tick);
      one := if D.Choose(w) == D.TakePush then [w.pushes[0]] else [];
      TypesOne(w, Pass(w, tick).0, tick.drains, one);
    } else {
      assert w.dequeued + [] == w.dequeued && w.typed + [] == w.typed;
    }
  }

  lemma TypesOne(w: D.Loop, m: D.Loop, drains: nat, one: seq<D.Tagged>)
    requires one == if D.Choose(w) == D.TakePush then [w.pushes[0]] else []
    requires if one != [] then |w.pushes[0].chunk| <= drains && Typed(w, m, drains)
             else m.dequeued == w.dequeued && m.typed == w.typed
    ensures m.dequeued == w.dequeued + one && m.typed == w.typed + Flatten(D.Payloads(one))
  {
    if one != [] {
      assert D.Payloads(one) == [one[0].chunk];
      FlattenOne(one[0].chunk);
      assert one[0].chunk[..|one[0].chunk|] == one[0].chunk;
    }
  }

  lemma TypedMore(dequeued: seq<D.Tagged>, typed: seq<byte>, one: seq<D.Tagged>, rest: seq<D.Tagged>)
    ensures dequeued + one + rest == dequeued + (one + rest)
    ensures typed + Flatten(D.Payloads(one)) + Flatten(D.Payloads(rest)) == typed + Flatten(D.Payloads(one + rest))
  {
    assert D.Payloads(one + rest) == D.Payloads(one) + D.Payloads(rest);
    FlattenConcat(D.Payloads(one), D.Payloads(rest));
  }

  class EventLoop {
    const hub: Hub
    const logging: bool
    var control: seq<D.Command>
    var pushes: seq<D.Tagged>
    var unread: seq<byte>
    var hup: bool
    var waiting: nat
    var signaled: bool
    var accepted: nat
    var applied: seq<D.Command>
    var typed: seq<byte>
    var logTx: seq<Chunk>
    ghost var phase: D.Phase
    ghost var issued: seq<D.Command>
    ghost var sent: seq<D.Tagged>
    ghost var dequeued: seq<D.Tagged>
    ghost var drained: seq<nat>
    ghost var produced: seq<byte>

    ghost predicate Valid()
      reads this, hub.Repr()
    {
      hub.Valid()
    }

    ghost function View(): D.Loop
      reads this, hub.fanout
    {
      D.Loop(phase, control, pushes, unread, hup, waiting, signaled, logging, accepted, applied, typed,
             hub.fanout.history, logTx, issued, sent, dequeued, drained, produced)
    }

    constructor (scrollback: nat, logging: bool)
      requires IsPowerOfTwo(scrollback)
      ensures Valid() && View() == D.Fresh(logging)
      ensures fresh(hub.Repr()) && hub.World() == F.Initial(scrollback, 1024)
    {
      hub := new Hub(scrollback, 1024);
      this.logging := logging;
      control, pushes, unread, hup, waiting, signaled := [], [], [], false, 0, false;
      accepted, applied, typed, logTx := 0, [], [], [];
      phase, issued, sent, dequeued, drained, produced := D.Selecting, [], [], [], [], [];
    }

    /** Another task, the child or a signal handler acts. */
    method Meanwhile(s: D.Step)
      requires FromWorld(s) && D.Enabled(View(), s)
      modifies this
      ensures View() == D.Next(old(View()), s)
    {
      match s {
        case QueueControl(c) => control, issued := control + [c], issued + [c];
        case QueuePush(t) => pushes, sent := pushes + [t], sent + [t];
        case ChildWrites(bytes) => unread, produced := unread + bytes, produced + bytes;
        case HangUp => hup := true;
        case Arrive => waiting := waiting + 1;
        case Terminate => signaled := true;
      }
    }

    /** Whatever of `steps` can happen does. */
    method World(steps: seq<D.Step>) returns (ghost trace: seq<D.Step>)
      modifies this
      ensures View() == Happens(old(View()), steps)
      ensures D.Exec(old(View()), trace) == Some(View())
      ensures forall s | s in trace :: FromWorld(s)
      ensures phase == old(phase)
    {
      trace := [];
      assert steps[0..] == steps;
      for k := 0 to |steps|
        invariant Happens(old(View()), steps) == Happens(View(), steps[k..])
        invariant D.Exec(old(View()), trace) == Some(View())
        invariant forall s | s in trace :: FromWorld(s)
        invariant phase == old(phase)
      {
        assert steps[k..][1..] == steps[k + 1..];
        var able := CanHappen(steps[k]);
        if able {
          D.ExecSnoc(old(View()), trace, steps[k]);
          trace := trace + [steps[k]];
          Meanwhile(steps[k]);
        }
      }
    }

    /** The control arm: apply the oldest command. */
    method ApplyCommand(ghost count: nat)
      requires D.Enabled(View(), D.Select(count)) && D.Choose(View()) == D.TakeControl
      modifies `control, `applied
      ensures View() == D.Next(old(View()), D.Select(count))
    {
      control, applied := control[1..], applied + [control[0]];
    }

    /** The read arm: what the pty returned goes to the fanout and the log. */
    method ReadOutput(count: nat)
      requires Valid() && D.Enabled(View(), D.Select(count)) && D.Choose(View()) == D.ReadPty && unread != []
      modifies this, hub.Repr()
      ensures Valid()
      ensures View() == D.Next(old(View()), D.Select(count))
      ensures hub.World() == F.Next(old(hub.World()), F.Pushed(old(unread)[..count]))
    {
      var chunk := unread[..count];
      hub.Push(chunk);
      unread := unread[count..];
      if logging {
        logTx := logTx + [chunk];
      }
    }

    method AcceptClient(ghost count: nat)
      requires Valid() && D.Enabled(View(), D.Select(count)) && D.Choose(View()) == D.Accept
      modifies `waiting, `accepted, hub
      ensures Valid()
      ensures hub.World() == F.Next(old(hub.World()), F.Connected)
      ensures View() == D.Next(old(View()), D.Select(count))
    {
      hub.Connect();
      waiting, accepted := waiting - 1, accepted + 1;
    }

    /** The push arm, up to its write: the oldest chunk leaves the queue. */
    method TakePush(ghost count: nat) returns (data: D.Tagged)
      requires D.Enabled(View(), D.Select(count)) && D.Choose(View()) == D.TakePush
      modifies this
      ensures View() == D.Next(old(View()), D.Select(count))
      ensures phase == D.Draining(data.chunk)
    {
      data := pushes[0];
      pushes := pushes[1..];
      dequeued := dequeued + [data];
      phase := D.Draining(data.chunk);
    }

    /** And its end: what drained in time is typed, the rest is dropped. */
    method EndWrite(data: D.Tagged, drains: nat)
      requires phase == D.Draining(data.chunk)
      modifies this
      ensures View() == D.Next(old(View()), D.Drain(Least(drains, |data.chunk|)))
    {
      var n := Least(drains, |data.chunk|);
      typed := typed + data.chunk[..n];
      drained := drained + [n];
      phase := D.Selecting;
    }

    /** The whole push arm. */
    method WritePush(tick: Tick) returns (ghost trace: seq<D.Step>)
      requires D.Enabled(View(), D.Select(tick.count)) && D.Choose(View()) == D.TakePush
      modifies this
      ensures OnePass(old(View()), tick.count, trace)
      ensures D.Exec(old(View()), trace) == Some(View()) && phase == D.Selecting
      ensures View() == Pass(old(View()), tick).0
      ensures var chunk := old(pushes)[0].chunk;
        var k := if tick.drains <= |chunk| then tick.drains else |chunk|;
        && typed == old(typed) + chunk[..k] && drained == old(drained) + [k]
        && dequeued == old(dequeued) + [old(pushes)[0]]
    {
      PassEffect(View(), tick);
      ghost var l := View();
      var data := TakePush(tick.count);
      ghost var meanwhile := World(tick.during);
      trace := AfterWait(l, View(), D.Select(tick.count), meanwhile, D.Drain(Least(tick.drains, |data.chunk|)));
      EndWrite(data, tick.drains);
    }

    /** The read arm once the pty has hung up: await the child's exit. */
    method AwaitExit(tick: Tick) returns (ghost trace: seq<D.Step>)
      requires D.Enabled(View(), D.Select(tick.count)) && D.Choose(View()) == D.ReadPty && unread == []
      modifies this
      ensures OnePass(old(View()), tick.count, trace)
      ensures D.Exec(old(View()), trace) == Some(View()) && phase == D.Stopped(D.ChildExited)
      ensures View() == Pass(old(View()), tick).0
    {
      ghost var l := View();
      phase := D.Reaping;
      ghost var meanwhile := World(tick.during);
      trace := AfterWait(l, View(), D.Select(tick.count), meanwhile, D.Reap);
      phase := D.Stopped(D.ChildExited);
    }

    /** One pass of the biased select. */
    method Iterate(tick: Tick) returns (reason: Option<D.Reason>, ghost trace: seq<D.Step>)
      requires Valid() && D.Enabled(View(), D.Select(tick.count))
      modifies this, hub.Repr()
      ensures Valid()
      ensures OnePass(old(View()), tick.count, trace)
      ensures F.Exec(old(hub.World()), SelectInFan(old(View()), tick.count)) == Some(hub.World())
      ensures D.Exec(old(View()), trace) == Some(View())
      ensures (View(), reason) == Pass(old(View()), tick)
      ensures if old(control) == [] && old(unread) == [] && !old(hup) && old(waiting) == 0 && old(pushes) != []
              then Typed(old(View()), View(), tick.drains)
              else typed == old(typed) && drained == old(drained) && dequeued == old(dequeued)
    {
      ghost var l, select := View(), D.Select(tick.count);
      trace, reason := [select], None;
      if !Awaits(l) {
        QuickPass(l, tick);
      }
      PassInFan(l, hub.World(), tick.count);
      PassEffect(l, tick);
      if control != [] {
        ApplyCommand(tick.count);
      } else if unread != [] || hup {
        if unread == [] {
          trace := AwaitExit(tick);
          reason := Some(D.ChildExited);
        } else {
          ReadOutput(tick.count);
        }
      } else if waiting > 0 {
        AcceptClient(tick.count);
      } else if pushes != [] {
        trace := WritePush(tick);
      } else {
        reason := Some(D.DaemonSignaled);
        phase := D.Stopped(D.DaemonSignaled);
      }
    }

    /** The loop, over any schedule of the rest of the world: one pass for every
        tick with something ready, each a run of the transition system, until
        the select breaks out. */
    method Run(ticks: seq<Tick>) returns (reason: Option<D.Reason>, ghost trace: seq<D.Step>)
      requires Valid() && phase == D.Selecting
      modifies this, hub.Repr()
      ensures Valid()
      ensures D.Exec(old(View()), trace) == Some(View())
      ensures (View(), reason) == RunOf(old(View()), ticks)
      ensures phase == (match reason case None => D.Selecting case Some(r) => D.Stopped(r))
    {
      reason, trace := None, [];
      assert ticks[0..] == ticks;
      for i := 0 to |ticks|
        invariant Valid() && reason == None && phase == D.Selecting
        invariant D.Exec(old(View()), trace) == Some(View())
        invariant RunOf(old(View()), ticks) == RunOf(View(), ticks[i..])
      {
        assert ticks[i..][1..] == ticks[i + 1..];
        ghost var steps;
        reason, steps := TakeTick(ticks[i]);
        D.ExecConcat(old(View()), trace, steps);
        trace := trace + steps;
        if reason.Some? {
          return;
        }
      }
    }

    method TakeTick(tick: Tick) returns (reason: Option<D.Reason>, ghost trace: seq<D.Step>)
      requires Valid() && phase == D.Selecting
      modifies this, hub.Repr()
      ensures Valid()
      ensures D.Exec(old(View()), trace) == Some(View())
      ensures (View(), reason) == TickOf(old(View()), tick)
      ensures phase == (match reason case None => D.Selecting case Some(r) => D.Stopped(r))
    {
      TickPhase(View(), tick);
      reason := None;
      trace := World(tick.before);
      var ready := Ready(tick.count);
      if ready {
        ghost var steps;
        reason, steps := Iterate(tick);
        D.ExecConcat(old(View()), trace, steps);
        trace := trace + steps;
      }
    }

    /** Queues have room for it, and a child that hung up is silent. */
    method CanHappen(s: D.Step) returns (ok: bool)
      ensures ok == (FromWorld(s) && D.Enabled(View(), s))
    {
      match s {
        case QueueControl(_) => ok := |control| < D.CONTROL_CAPACITY;
        case QueuePush(_) => ok := |pushes| < D.PUSH_CAPACITY;
        case ChildWrites(bytes) => ok := bytes != [] && !hup;
        case HangUp => ok := !hup;
        case Arrive => ok := true;
        case Terminate => ok := true;
        case _ => ok := false;
      }
    }

    /** Some branch of the select is ready. */
    method Ready(count: nat) returns (ok: bool)
      requires phase == D.Selecting
      ensures ok == D.Enabled(View(), D.Select(count))
    {
      if control == [] && unread != [] {
        ok := 0 < count <= D.READ_SIZE && count <= |unread|;
      } else {
        ok := control != [] || hup || waiting > 0 || pushes != [] || signaled;
      }
    }

    /** After the loop: the end marker is the last thing the log is sent. */
    method Shutdown(marker: Chunk)
      requires phase.Stopped?
      modifies `logTx, `phase
      ensures View() == D.Next(old(View()), D.Shutdown(marker))
    {
      if logging {
        logTx := logTx + [marker];
      }
      phase := D.Finished(phase.reason, marker);
    }
  }

  lemma PassInFan(l: D.Loop, w: F.World, count: nat)
    requires D.Enabled(l, D.Select(count))
    ensures F.Exec(w, SelectInFan(l, count)) == Some(
      if D.Choose(l) == D.ReadPty && l.unread != [] then F.Next(w, F.Pushed(l.unread[..count]))
      else if D.Choose(l) == D.Accept then F.Next(w, F.Connected)
      else w)
  {
    var steps := SelectInFan(l, count);
    if steps != [] {
      F.ExecOne(w, steps[0]);
      assert steps == [steps[0]];
    }
  }

  /** A pass that waited: the select, the world's steps, the end of the wait. */
  lemma AfterWait(l: D.Loop, m: D.Loop, select: D.Step, meanwhile: seq<D.Step>, end: D.Step)
    returns (trace: seq<D.Step>)
    requires D.Enabled(l, select) && D.Exec(D.Next(l, select), meanwhile) == Some(m) && D.Enabled(m, end)
    requires forall s | s in meanwhile :: FromWorld(s)
    ensures trace == [select] + meanwhile + [end]
    ensures forall i :: 1 <= i < |trace| - 1 ==> FromWorld(trace[i])
    ensures D.Exec(l, trace) == Some(D.Next(m, end))
  {
    trace := [select] + meanwhile + [end];
    D.ExecOne(l, select);
    D.ExecConcat(l, [select], meanwhile);
    D.ExecSnoc(l, [select] + meanwhile, end);
  }
}
