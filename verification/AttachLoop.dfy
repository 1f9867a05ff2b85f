/** The client's attach loop and the push command: everything the user types
    arrives at the daemon, in order and unchanged. */
module AttachLoop {
  import opened Bytes
  import opened Codec
  import opened FrameCodec

  const READ_SIZE: nat := 4096

  datatype Options = Options(
    detachChar: Option<byte>, suspendChar: Option<byte>,
    how: RedrawMethod, rows: u16, cols: u16, skipRing: bool)

  /** `Failed` stands for any error the loop returns. */
  datatype Outcome = Detached | Suspended | SessionEnded | InputClosed | Failed

  /** What one iteration of the loop woke up for. A read of the terminal or of
      the connection fails or returns at most a buffer of bytes, none at end of
      file. */
  datatype Event =
    | Typed(chunk: Chunk)
    | Output(chunk: Chunk)
    | ReadFailed
    | Resized(rows: u16, cols: u16)
    | ResizeGone

  predicate ValidEvent(e: Event) {
    match e
    case Typed(c) => |c| <= READ_SIZE
    case Output(c) => |c| <= READ_SIZE
    case _ => true
  }

  // --------------------------------------------------- special characters

  predicate IsSpecial(b: byte, o: Options) {
    Some(b) == o.suspendChar || Some(b) == o.detachChar
  }

  /** What a special byte asks for; suspend wins when both are the same. */
  function OutcomeOf(b: byte, o: Options): Outcome {
    if Some(b) == o.suspendChar then Suspended else Detached
  }

  /** Position of the first special byte, or the length when there is none. */
  function FirstSpecial(s: seq<byte>, o: Options): (n: nat)
    ensures n <= |s|
    ensures n < |s| ==> IsSpecial(s[n], o)
    ensures forall i :: 0 <= i < n ==> !IsSpecial(s[i], o)
  {
    if s == [] || IsSpecial(s[0], o) then 0 else 1 + FirstSpecial(s[1..], o)
  }

  lemma {:induction false} FirstSpecialConcat(a: seq<byte>, b: seq<byte>, o: Options)
    ensures FirstSpecial(a + b, o)
         == if FirstSpecial(a, o) < |a| then FirstSpecial(a, o) else |a| + FirstSpecial(b, o)
  {
    if a == [] {
      assert a + b == b;
    } else {
      assert (a + b)[1..] == a[1..] + b;
      FirstSpecialConcat(a[1..], b, o);
    }
  }

  method FindSpecialChar(chunk: Chunk, o: Options) returns (r: Option<(nat, Outcome)>)
    ensures match r
      case None => FirstSpecial(chunk, o) == |chunk|
      case Some(hit) => hit.0 == FirstSpecial(chunk, o) < |chunk| && hit.1 == OutcomeOf(chunk[hit.0], o)
    ensures match r
      case None => forall b | b in chunk :: Some(b) != o.suspendChar && Some(b) != o.detachChar
      case Some(hit) =>
        && hit.0 < |chunk|
        && (forall i :: 0 <= i < hit.0 ==> Some(chunk[i]) != o.suspendChar && Some(chunk[i]) != o.detachChar)
        && if Some(chunk[hit.0]) == o.suspendChar then hit.1 == Suspended
           else Some(chunk[hit.0]) == o.detachChar && hit.1 == Detached
  {
    assert forall i :: 0 <= i < FirstSpecial(chunk, o) ==> !IsSpecial(chunk[i], o);
    for i := 0 to |chunk|
      invariant FirstSpecial(chunk, o) == i + FirstSpecial(chunk[i..], o)
    {
      var b := chunk[i];
      if Some(b) == o.suspendChar {
        return Some((i, Suspended));
      } else if Some(b) == o.detachChar {
        return Some((i, Detached));
      }
      assert chunk[i..][1..] == chunk[i + 1..];
    }
    r := None;
  }

  // ----------------------------------------------------- what a run sends

  function Types(e: Event): seq<byte> {
    if e.Typed? then e.chunk else []
  }

  function InputOf(events: seq<Event>): seq<byte> {
    if events == [] then [] else Types(events[0]) + InputOf(events[1..])
  }

  function Shows(e: Event): seq<byte> {
    if e.Output? then e.chunk else []
  }

  function OutputOf(events: seq<Event>): seq<byte> {
    if events == [] then [] else Shows(events[0]) + OutputOf(events[1..])
  }

  function ResizesOf(events: seq<Event>): seq<(u16, u16)> {
    if events == [] then []
    else (if events[0].Resized? then [(events[0].rows, events[0].cols)] else []) + ResizesOf(events[1..])
  }

  /** What the loop sends for one event. */
  function Sends(e: Event, o: Options): seq<Message> {
    match e
    case Typed(c) => if FirstSpecial(c, o) == 0 then [] else [Push(c[..FirstSpecial(c, o)])]
    case Resized(rows, cols) => [Winch(rows, cols)]
    case _ => []
  }

  /** Whether the loop returns on an event, and with what. */
  function StopsWith(e: Event, o: Options): Option<Outcome> {
    match e
    case Typed(c) =>
      if c == [] then Some(InputClosed)
      else if FirstSpecial(c, o) < |c| then Some(OutcomeOf(c[FirstSpecial(c, o)], o))
      else None
    case Output(c) => if c == [] then Some(SessionEnded) else None
    case ReadFailed => Some(Failed)
    case _ => None
  }

  function Transcript(events: seq<Event>, o: Options): seq<Message> {
    if events == [] then [] else Sends(events[0], o) + Transcript(events[1..], o)
  }

  lemma {:induction false} TranscriptSnoc(events: seq<Event>, e: Event, o: Options)
    ensures Transcript(events + [e], o) == Transcript(events, o) + Sends(e, o)
  {
    if events == [] {
      assert events + [e] == [e] && [e][1..] == [];
    } else {
      assert (events + [e])[1..] == events[1..] + [e];
      TranscriptSnoc(events[1..], e, o);
      Reassociate(Sends(events[0], o), Transcript(events[1..], o), Sends(e, o));
    }
  }

  lemma {:induction false} OutputOfSnoc(events: seq<Event>, e: Event)
    ensures OutputOf(events + [e]) == OutputOf(events) + Shows(e)
  {
    if events == [] {
      assert events + [e] == [e] && [e][1..] == [];
    } else {
      assert (events + [e])[1..] == events[1..] + [e];
      OutputOfSnoc(events[1..], e);
      Reassociate(Shows(events[0]), OutputOf(events[1..]), Shows(e));
    }
  }

  function Handshake(o: Options): seq<Message> {
    [Attach(o.skipRing), Redraw(o.how, o.rows, o.cols)]
  }

  function Farewell(outcome: Option<Outcome>): seq<Message> {
    if outcome == Some(Suspended) then [Codec.Detach] else []
  }

  /** Everything a run over `events` sends. */
  function Sent(events: seq<Event>, outcome: Option<Outcome>, o: Options): seq<Message> {
    Handshake(o) + Transcript(events, o) + Farewell(outcome)
  }

  // ---------------------------------------------------------------- the loop

  /** Where frames go: it takes `room` more bytes before it fails. */
  class Sink {
    var data: seq<byte>
    var room: nat

    constructor (room: nat)
      ensures data == [] && this.room == room
    {
      data, this.room := [], room;
    }

    method WriteAll(bytes: seq<byte>) returns (ok: bool)
      modifies this
      ensures ok == (|bytes| <= old(room))
      ensures data == old(data) + Upto(bytes, old(room)) && room == old(room) - |Upto(bytes, old(room))|
    {
      ok := |bytes| <= room;
      data, room := data + Upto(bytes, room), room - |Upto(bytes, room)|;
    }
  }

  /** The terminal: bytes handed to it show once flushed. */
  class Terminal {
    const sink: Sink
    var shown: seq<byte>

    constructor (sink: Sink)
      ensures this.sink == sink && shown == sink.data
    {
      this.sink, shown := sink, sink.data;
    }

    method Flush()
      modifies `shown
      ensures shown == sink.data
    {
      shown := sink.data;
    }
  }

  method Send(w: Sink, msg: Message) returns (ok: bool)
    modifies w
    ensures ok == (|Wire(msg)| <= old(w.room))
    ensures w.data == old(w.data) + Upto(Wire(msg), old(w.room))
    ensures w.room == old(w.room) - |Upto(Wire(msg), old(w.room))|
  {
    var buf := new ByteBuffer([]);
    Encode(msg, buf);
    assert [] + Wire(msg) == Wire(msg);
    ok := w.WriteAll(buf.data);
  }

  /** Two frames in order; the second is not sent when the first fails. */
  method SendTwo(w: Sink, first: Message, second: Message) returns (ok: bool)
    modifies w
    ensures ok == (|WireAll([first, second])| <= old(w.room))
    ensures w.data == old(w.data) + Upto(WireAll([first, second]), old(w.room))
    ensures w.room == old(w.room) - |Upto(WireAll([first, second]), old(w.room))|
  {
    WireTwo(first, second);
    ok := Send(w, first);
    if ok {
      UptoConcat(Wire(first), Wire(second), old(w.room));
      Reassociate(old(w.data), Wire(first), Upto(Wire(second), w.room));
      ok := Send(w, second);
    } else {
      UptoFull(Wire(first), Wire(second), old(w.room));
    }
  }

  lemma WireTwo(first: Message, second: Message)
    ensures WireAll([first]) == Wire(first)
    ensures WireAll([first, second]) == Wire(first) + Wire(second)
  {
    assert [] + [first] == [first] && [first] + [second] == [first, second];
    WireAllSnoc([], first);
    WireAllSnoc([first], second);
  }

  /** The events a run consumed: only the last one can have stopped it. */
  ghost predicate RunOver(events: seq<Event>, outcome: Option<Outcome>, o: Options) {
    && (forall e | e in events :: ValidEvent(e))
    && (forall i :: 0 <= i < |events| - 1 ==> StopsWith(events[i], o) == None)
    && outcome == if events == [] then None else StopsWith(events[|events| - 1], o)
  }

  /** What an event puts on the wire. */
  function WireOf(e: Event, o: Options): seq<byte> {
    WireAll(Sends(e, o) + Farewell(StopsWith(e, o)))
  }

  /** Connection and terminal: what they have taken and still take. */
  datatype Taken = Taken(wire: seq<byte>, room: nat, screen: seq<byte>, screenRoom: nat)

  function Take(t: Taken, wire: seq<byte>, screen: seq<byte>): Taken {
    Taken(t.wire + Upto(wire, t.room), t.room - |Upto(wire, t.room)|,
          t.screen + Upto(screen, t.screenRoom), t.screenRoom - |Upto(screen, t.screenRoom)|)
  }

  ghost function Now(conn: Sink, output: Terminal): Taken
    reads conn, output.sink
  {
    Taken(conn.data, conn.room, output.sink.data, output.sink.room)
  }

  /** What one wake-up does. When the connection or the terminal takes less
      than all of it, the loop fails with what was taken. */
  method HandleEvent(e: Event, o: Options, conn: Sink, output: Terminal) returns (outcome: Option<Outcome>)
    requires conn != output.sink && output.shown == output.sink.data
    modifies conn, output, output.sink
    ensures Now(conn, output) == Take(old(Now(conn, output)), WireOf(e, o), Shows(e))
    ensures output.shown == if |Shows(e)| <= old(output.sink.room) then output.sink.data else old(output.shown)
    ensures outcome ==
      if |WireOf(e, o)| <= old(conn.room) && |Shows(e)| <= old(output.sink.room) then StopsWith(e, o) else Some(Failed)
    ensures e.Output? ==>
      && conn.data == old(conn.data) && output.sink.data == old(output.sink.data) + Upto(e.chunk, old(output.sink.room))
    ensures !e.Output? ==> output.sink.data == old(output.sink.data) && output.shown == old(output.shown)
    ensures e.Resized? ==> conn.data == old(conn.data) + Upto(Wire(Winch(e.rows, e.cols)), old(conn.room))
  {
    EventMeaning(e, o);
    var ok := true;
    outcome := None;
    match e {
      case Typed(chunk) =>
        if |chunk| == 0 {
          return Some(InputClosed);
        }
        ok, outcome := ForwardInput(chunk, o, conn);
      case Output(chunk) =>
        if |chunk| == 0 {
          return Some(SessionEnded);
        }
        ok := output.sink.WriteAll(chunk);
        if ok {
          output.Flush();
        }
      case ReadFailed =>
        return Some(Failed);
      case Resized(rows, cols) =>
        WireTwo(Winch(rows, cols), Winch(rows, cols));
        assert Sends(e, o) + [] == [Winch(rows, cols)];
        ok := Send(conn, Winch(rows, cols));
      case ResizeGone =>
    }
    if !ok {
      outcome := Some(Failed);
    }
  }

  /** A read of the terminal: what precedes a special byte is pushed, and a
      suspend says goodbye. */
  method ForwardInput(chunk: Chunk, o: Options, conn: Sink) returns (ok: bool, outcome: Option<Outcome>)
    requires chunk != []
    modifies conn
    ensures var wire := WireOf(Typed(chunk), o);
      && ok == (|wire| <= old(conn.room))
      && conn.data == old(conn.data) + Upto(wire, old(conn.room))
      && conn.room == old(conn.room) - |Upto(wire, old(conn.room))|
    ensures outcome == StopsWith(Typed(chunk), o)
  {
    ok, outcome := true, None;
    var hit := FindSpecialChar(chunk, o);
    var pos := if hit.Some? then hit.value.0 else |chunk|;
    var push := Push(chunk[..pos]);
    outcome := if hit.Some? then Some(hit.value.1) else None;
    ghost var sends, farewell := Sends(Typed(chunk), o), Farewell(outcome);
    WireTwo(push, Codec.Detach);
    WireTwo(Codec.Detach, push);
    assert sends == if pos > 0 then [push] else [];
    if pos > 0 && outcome == Some(Suspended) {
      assert sends + farewell == [push, Codec.Detach];
      ok := SendTwo(conn, push, Codec.Detach);
    } else if pos > 0 {
      assert sends + farewell == [push];
      ok := Send(conn, push);
    } else if outcome == Some(Suspended) {
      assert sends + farewell == [Codec.Detach];
      ok := Send(conn, Codec.Detach);
    }
  }

  /** The attach loop over the events it wakes up for: `used` of them are
      consumed before it returns, all of them when it is still running. `meant`
      is what it returns unless connection or terminal fail it first. */
  method Drive(events: seq<Event>, o: Options, conn: Sink, output: Terminal)
    returns (outcome: Option<Outcome>, used: nat, ghost meant: Option<Outcome>)
    requires forall e | e in events :: ValidEvent(e)
    requires conn != output.sink && output.shown == output.sink.data
    modifies conn, output, output.sink
    ensures used <= |events| && (outcome == None ==> used == |events|)
    ensures Progress(old(Now(conn, output)), Now(conn, output), output.shown, events[..used], outcome, meant, o)
    ensures conn.data == old(conn.data) + Upto(WireAll(Sent(events[..used], meant, o)), old(conn.room))
    ensures output.sink.data == old(output.sink.data) + Upto(OutputOf(events[..used]), old(output.sink.room))
  {
    ghost var start := Now(conn, output);
    used, outcome, meant := 0, None, None;
    var ok := SendTwo(conn, Attach(o.skipRing), Redraw(o.how, o.rows, o.cols));
    HandshakeWire(o);
    if !ok {
      return Some(Failed), 0, None;
    }
    while used < |events| && outcome == None
      invariant used <= |events| && conn != output.sink
      invariant Progress(start, Now(conn, output), output.shown, events[..used], outcome, meant, o)
      decreases |events| - used
    {
      assert events[..used + 1] == events[..used] + [events[used]];
      outcome := WakeUp(start, events[..used], meant, events[used], o, conn, output);
      meant := StopsWith(events[used], o);
      used := used + 1;
    }
  }

  /** One iteration, as part of the run so far. */
  method WakeUp(ghost start: Taken, ghost before: seq<Event>, ghost meant: Option<Outcome>, e: Event, o: Options,
                conn: Sink, output: Terminal)
    returns (outcome: Option<Outcome>)
    requires conn != output.sink && ValidEvent(e)
    requires Progress(start, Now(conn, output), output.shown, before, None, meant, o)
    modifies conn, output, output.sink
    ensures Progress(start, Now(conn, output), output.shown, before + [e], outcome, StopsWith(e, o), o)
  {
    ProgressStep(start, Now(conn, output), output.shown, before, meant, e, o);
    outcome := HandleEvent(e, o, conn, output);
  }

  function AfterEvents(start: Taken, events: seq<Event>, outcome: Option<Outcome>, o: Options): Taken {
    Take(start, WireAll(Sent(events, outcome, o)), OutputOf(events))
  }

  predicate TakesAll(start: Taken, events: seq<Event>, outcome: Option<Outcome>, o: Options) {
    |WireAll(Sent(events, outcome, o))| <= start.room && |OutputOf(events)| <= start.screenRoom
  }

  /** Where the loop is after `events`, having returned `outcome` if any: the
      wire holds the frames of handshake, body and farewell, and the terminal
      shows all output read, as far as connection and terminal took them. The
      loop has failed exactly when they did not take all. */
  ghost predicate Progress(start: Taken, now: Taken, shown: seq<byte>, events: seq<Event>,
                           outcome: Option<Outcome>, meant: Option<Outcome>, o: Options) {
    && RunOver(events, meant, o)
    && now == AfterEvents(start, events, meant, o)
    && if TakesAll(start, events, meant, o) then outcome == meant && shown == now.screen
       else outcome == Some(Failed) && shown <= now.screen
  }

  lemma ProgressStep(start: Taken, now: Taken, shown: seq<byte>, events: seq<Event>, meant: Option<Outcome>, e: Event,
                     o: Options)
    requires Progress(start, now, shown, events, None, meant, o) && ValidEvent(e)
    ensures var now' := Take(now, WireOf(e, o), Shows(e));
      var whole := |WireOf(e, o)| <= now.room && |Shows(e)| <= now.screenRoom;
      Progress(start, now', if |Shows(e)| <= now.screenRoom then now'.screen else shown, events + [e],
               if whole then StopsWith(e, o) else Some(Failed), StopsWith(e, o), o)
  {
    DriveStep(start, events, e, o);
  }

  lemma HandshakeWire(o: Options)
    ensures Sent([], None, o) == [Attach(o.skipRing), Redraw(o.how, o.rows, o.cols)]
  {
  }

  /** Taking in two portions, as long as the first was taken whole. */
  lemma TakeTwice(t: Taken, wire: seq<byte>, more: seq<byte>, screen: seq<byte>, shows: seq<byte>)
    requires |wire| <= t.room && |screen| <= t.screenRoom
    ensures Take(Take(t, wire, screen), more, shows) == Take(t, wire + more, screen + shows)
  {
    UptoConcat(wire, more, t.room);
    UptoConcat(screen, shows, t.screenRoom);
    Reassociate(t.wire, wire, Upto(more, t.room - |wire|));
    Reassociate(t.screen, screen, Upto(shows, t.screenRoom - |screen|));
  }

  lemma DriveStep(start: Taken, events: seq<Event>, e: Event, o: Options)
    requires RunOver(events, None, o) && ValidEvent(e) && TakesAll(start, events, None, o)
    ensures RunOver(events + [e], StopsWith(e, o), o)
    ensures var now := AfterEvents(start, events, None, o);
      && AfterEvents(start, events + [e], StopsWith(e, o), o) == Take(now, WireOf(e, o), Shows(e))
      && (TakesAll(start, events + [e], StopsWith(e, o), o)
          <==> |WireOf(e, o)| <= now.room && |Shows(e)| <= now.screenRoom)
  {
    RunOverStep(events, e, o);
    SentSnoc(events, e, o);
    OutputOfSnoc(events, e);
    TakeTwice(start, WireAll(Sent(events, None, o)), WireOf(e, o), OutputOf(events), Shows(e));
  }

  lemma RunOverStep(events: seq<Event>, e: Event, o: Options)
    requires RunOver(events, None, o) && ValidEvent(e)
    ensures RunOver(events + [e], StopsWith(e, o), o)
  {
    forall i | 0 <= i < |events + [e]| - 1 ensures StopsWith((events + [e])[i], o) == None {
      assert (events + [e])[i] == events[i];
    }
  }

  lemma SentSnoc(events: seq<Event>, e: Event, o: Options)
    ensures WireAll(Sent(events + [e], StopsWith(e, o), o))
         == WireAll(Sent(events, None, o)) + WireOf(e, o)
  {
    TranscriptSnoc(events, e, o);
    var more := Sends(e, o) + Farewell(StopsWith(e, o));
    Reassociate(Handshake(o), Transcript(events, o), Sends(e, o));
    Reassociate(Handshake(o) + Transcript(events, o), Sends(e, o), Farewell(StopsWith(e, o)));
    assert Sent(events, None, o) == Handshake(o) + Transcript(events, o);
    WireAllConcat(Sent(events, None, o), more);
  }

  // ------------------------------------------------------ what a run means

  function WinchesOf(ms: seq<Message>): seq<(u16, u16)> {
    if ms == [] then [] else (if ms[0].Winch? then [(ms[0].rows, ms[0].cols)] else []) + WinchesOf(ms[1..])
  }

  lemma {:induction false} WinchesOfConcat(a: seq<Message>, b: seq<Message>)
    ensures WinchesOf(a + b) == WinchesOf(a) + WinchesOf(b)
  {
    if a == [] {
      assert a + b == b;
    } else {
      assert (a + b)[1..] == a[1..] + b;
      WinchesOfConcat(a[1..], b);
      Reassociate(if a[0].Winch? then [(a[0].rows, a[0].cols)] else [], WinchesOf(a[1..]), WinchesOf(b));
    }
  }

  /** The middle of a run is input and window sizes only, each frame within
      what one terminal read can fill. */
  predicate Steady(m: Message) {
    (m.Push? && 0 < |m.payload| <= READ_SIZE) || m.Winch?
  }

  /** The pushed bytes are the input up to the first special byte, and that
      byte decides the outcome. */
  ghost predicate InputForwarded(input: seq<byte>, pushed: seq<byte>, outcome: Option<Outcome>, o: Options) {
    var stop := FirstSpecial(input, o);
    && pushed == input[..stop]
    && if stop < |input| then outcome == Some(OutcomeOf(input[stop], o))
       else outcome != Some(Suspended) && outcome != Some(Detached)
  }

  /** So it is after any run, however the input is cut into reads and whatever
      output and resizes come between. */
  lemma {:induction false} InputConserved(events: seq<Event>, outcome: Option<Outcome>, o: Options)
    requires RunOver(events, outcome, o)
    ensures InputForwarded(InputOf(events), PushedBytes(Transcript(events, o)), outcome, o)
    decreases |events|
  {
    if events != [] {
      var e, rest := events[0], events[1..];
      SendsOne(e, o);
      PushedBytesConcat(Sends(e, o), Transcript(rest, o));
      if rest == [] {
        assert InputOf(events) == Types(e);
      } else {
        RunOverTail(events, outcome, o);
        InputConserved(rest, outcome, o);
        InputContinues(e, InputOf(rest), PushedBytes(Transcript(rest, o)), outcome, o);
      }
    }
  }

  /** Every resize is reported, in order, and nothing but input and resizes is
      sent between the handshake and the farewell. */
  lemma {:induction false} BodySteady(events: seq<Event>, o: Options)
    ensures WinchesOf(Transcript(events, o)) == ResizesOf(events)
    ensures (forall e | e in events :: ValidEvent(e)) ==> forall m | m in Transcript(events, o) :: Steady(m)
    decreases |events|
  {
    if events != [] {
      SendsOne(events[0], o);
      WinchesOfConcat(Sends(events[0], o), Transcript(events[1..], o));
      BodySteady(events[1..], o);
    }
  }

  lemma RunOverTail(events: seq<Event>, outcome: Option<Outcome>, o: Options)
    requires RunOver(events, outcome, o) && |events| > 1
    ensures RunOver(events[1..], outcome, o) && StopsWith(events[0], o) == None
  {
    forall i | 0 <= i < |events[1..]| - 1 ensures StopsWith(events[1..][i], o) == None {
      assert events[1..][i] == events[i + 1];
    }
  }

  /** Input without a special byte leaves the first special byte to the rest. */
  lemma InputContinues(e: Event, more: seq<byte>, pushed: seq<byte>, outcome: Option<Outcome>, o: Options)
    requires StopsWith(e, o) == None && InputForwarded(more, pushed, outcome, o)
    ensures Types(e)[..FirstSpecial(Types(e), o)] == Types(e)
    ensures InputForwarded(Types(e) + more, Types(e) + pushed, outcome, o)
  {
    FirstSpecialConcat(Types(e), more, o);
    var stop := FirstSpecial(more, o);
    assert (Types(e) + more)[..|Types(e)| + stop] == Types(e) + more[..stop];
  }

  lemma SendsOne(e: Event, o: Options)
    ensures PushedBytes(Sends(e, o)) == Types(e)[..FirstSpecial(Types(e), o)]
    ensures WinchesOf(Sends(e, o)) == if e.Resized? then [(e.rows, e.cols)] else []
    ensures ValidEvent(e) ==> forall m | m in Sends(e, o) :: Steady(m)
  {
    assert |Sends(e, o)| <= 1;
    if |Sends(e, o)| == 1 {
      assert Sends(e, o)[1..] == [];
    }
  }

  /** What one event sends, shows and means. */
  lemma EventMeaning(e: Event, o: Options)
    ensures Shows(e) == if e.Output? then e.chunk else []
    ensures !e.Typed? ==> WireOf(e, o) == if e.Resized? then Wire(Winch(e.rows, e.cols)) else []
    ensures StopsWith(e, o) == Some(InputClosed) <==> e == Typed([])
    ensures StopsWith(e, o) == Some(SessionEnded) <==> e == Output([])
    ensures StopsWith(e, o) == Some(Failed) <==> e == ReadFailed
    ensures StopsWith(e, o) == Some(Suspended) <==> e.Typed? && EndsOn(e.chunk, o.suspendChar, o)
    ensures StopsWith(e, o) == Some(Detached) <==>
      e.Typed? && EndsOn(e.chunk, o.detachChar, o) && o.detachChar != o.suspendChar
  {
    if e.Resized? {
      WireTwo(Winch(e.rows, e.cols), Codec.Detach);
      assert Sends(e, o) + [] == [Winch(e.rows, e.cols)];
    }
    if e.Typed? {
      FirstSpecialExact(e.chunk, o);
    }
  }

  /** The first suspend or detach character in `chunk` is `special`. */
  ghost predicate EndsOn(chunk: Chunk, special: Option<byte>, o: Options) {
    exists k :: 0 <= k < |chunk| && Some(chunk[k]) == special && NoneBefore(chunk, k, o)
  }

  ghost predicate NoneBefore(chunk: Chunk, k: nat, o: Options)
    requires k <= |chunk|
  {
    forall i :: 0 <= i < k ==> Some(chunk[i]) != o.suspendChar && Some(chunk[i]) != o.detachChar
  }

  lemma FirstSpecialExact(chunk: Chunk, o: Options)
    ensures var n := FirstSpecial(chunk, o);
      && (forall i :: 0 <= i < n ==> Some(chunk[i]) != o.suspendChar && Some(chunk[i]) != o.detachChar)
      && (n < |chunk| ==> Some(chunk[n]) == o.suspendChar || Some(chunk[n]) == o.detachChar)
      && NoneBefore(chunk, n, o)
      && forall k | 0 <= k < |chunk| && NoneBefore(chunk, k, o) ::
           Some(chunk[k]) == o.suspendChar || Some(chunk[k]) == o.detachChar ==> k == n
  {
    var n := FirstSpecial(chunk, o);
    assert forall i :: 0 <= i < n ==> !IsSpecial(chunk[i], o);
    assert n < |chunk| ==> IsSpecial(chunk[n], o);
  }

  /** The grammar of a run: Attach, Redraw, then pushes and window sizes only,
      then one Detach, at the very end, exactly when the run was suspended. */
  lemma SentGrammar(events: seq<Event>, outcome: Option<Outcome>, o: Options)
    requires RunOver(events, outcome, o)
    ensures var ms := Sent(events, outcome, o);
      && |ms| >= 2 && ms[0] == Attach(o.skipRing) && ms[1] == Redraw(o.how, o.rows, o.cols)
      && (Codec.Detach in ms <==> outcome == Some(Suspended))
      && (forall i :: 2 <= i < |ms| - 1 ==> ms[i].Push? || ms[i].Winch?)
      && (|ms| > 2 ==> if outcome == Some(Suspended) then ms[|ms| - 1] == Codec.Detach
                       else ms[|ms| - 1].Push? || ms[|ms| - 1].Winch?)
  {
    var body, ms := Transcript(events, o), Sent(events, outcome, o);
    BodySteady(events, o);
    assert forall i :: 2 <= i < 2 + |body| ==> ms[i] == body[i - 2] && Steady(body[i - 2]);
    assert |ms| == 2 + |body| + |Farewell(outcome)|;
    assert outcome == Some(Suspended) ==> ms[|ms| - 1] == Codec.Detach;
  }

  /** How a run ends, by its last event. */
  lemma OutcomeMeaning(events: seq<Event>, outcome: Option<Outcome>, o: Options)
    requires RunOver(events, outcome, o) && events != []
    ensures var last := events[|events| - 1];
      && (outcome == Some(InputClosed) <==> last == Typed([]))
      && (outcome == Some(SessionEnded) <==> last == Output([]))
      && (outcome == Some(Failed) <==> last == ReadFailed)
      && (outcome == Some(Suspended) <==> last.Typed? && EndsOn(last.chunk, o.suspendChar, o))
      && (outcome == Some(Detached) <==>
            last.Typed? && EndsOn(last.chunk, o.detachChar, o) && o.detachChar != o.suspendChar)
  {
    EventMeaning(events[|events| - 1], o);
  }

  /** Everything a run sends is within the decoder's limit. */
  lemma SentFits(events: seq<Event>, outcome: Option<Outcome>, o: Options)
    requires RunOver(events, outcome, o)
    ensures AllFit(Sent(events, outcome, o), DEFAULT_MAX_FRAME_LEN)
  {
    BodySteady(events, o);
    forall m | m in Sent(events, outcome, o) ensures Fits(m, DEFAULT_MAX_FRAME_LEN) {
      if m in Transcript(events, o) {
        assert Steady(m);
      }
    }
  }

  /** The daemon reads back exactly the messages the client sent, however the
      connection cuts the bytes, and never more than was sent. */
  lemma DaemonReadsBack(events: seq<Event>, outcome: Option<Outcome>, o: Options, arrived: seq<byte>, coming: seq<byte>)
    requires RunOver(events, outcome, o)
    requires arrived + coming == WireAll(Sent(events, outcome, o))
    ensures var p, input := Parse(arrived, DEFAULT_MAX_FRAME_LEN), InputOf(events);
      && !p.failed
      && p.msgs <= Sent(events, outcome, o)
      && PushedBytes(p.msgs) <= input[..FirstSpecial(input, o)]
      && (coming == [] ==> p == Parsed(Sent(events, outcome, o), false, []))
      && (coming == [] ==> PushedBytes(p.msgs) == input[..FirstSpecial(input, o)])
  {
    var ms := Sent(events, outcome, o);
    InputConserved(events, outcome, o);
    SentFits(events, outcome, o);
    PrefixOfStream(ms, arrived, coming, DEFAULT_MAX_FRAME_LEN);
    SentPushes(events, outcome, o);
    PushedPrefix(Parse(arrived, DEFAULT_MAX_FRAME_LEN).msgs, ms);
  }

  lemma SentPushes(events: seq<Event>, outcome: Option<Outcome>, o: Options)
    ensures PushedBytes(Sent(events, outcome, o)) == PushedBytes(Transcript(events, o))
  {
    var t, f := Transcript(events, o), Farewell(outcome);
    PushedBytesConcat(Handshake(o) + t, f);
    PushedBytesConcat(Handshake(o), t);
    assert f == [] || f[1..] == [];
    assert Handshake(o)[1..][1..] == [];
  }
}
