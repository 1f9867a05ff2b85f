/** `hytch push`: standard input of any length reaches the daemon verbatim. */
module PushCommand {
  import opened Bytes
  import opened Codec
  import opened AttachLoop

  const PUSH_CHUNK_SIZE: nat := 32 * 1024

  function Frames(chunks: seq<Chunk>): (ms: seq<Message>)
    ensures |ms| == |chunks|
    ensures forall i :: 0 <= i < |ms| ==> ms[i] == Push(chunks[i])
  {
    seq(|chunks|, i requires 0 <= i < |chunks| => Push(chunks[i]))
  }

  lemma {:induction false} FramesCarry(chunks: seq<Chunk>)
    ensures PushedBytes(Frames(chunks)) == Flatten(chunks)
  {
    if chunks != [] {
      assert Frames(chunks)[1..] == Frames(chunks[1..]);
      FramesCarry(chunks[1..]);
    }
  }

  lemma FramesSnoc(chunks: seq<Chunk>, c: Chunk)
    ensures WireAll(Frames(chunks + [c])) == WireAll(Frames(chunks)) + Wire(Push(c))
  {
    assert Frames(chunks + [c]) == Frames(chunks) + [Push(c)];
    WireAllSnoc(Frames(chunks), Push(c));
  }

  /** One more frame, of which the connection takes what still fits. */
  lemma FrameTaken(start: seq<byte>, chunks: seq<Chunk>, c: Chunk, room: nat)
    requires |WireAll(Frames(chunks))| <= room
    ensures var sent, all := WireAll(Frames(chunks)), WireAll(Frames(chunks + [c]));
      var taken := Upto(Wire(Push(c)), room - |sent|);
      && start + sent + taken == start + Upto(all, room)
      && (|Wire(Push(c))| <= room - |sent| <==> |all| <= room)
      && |sent| + |taken| == |Upto(all, room)|
  {
    FramesSnoc(chunks, c);
    var sent := WireAll(Frames(chunks));
    UptoConcat(sent, Wire(Push(c)), room);
    Reassociate(start, sent, Upto(Wire(Push(c)), room - |sent|));
  }

  /** Copies standard input, delivered as `stdin` read by read, to the
      connection: one frame a read, until the first empty read. The exit code
      is 0 at end of input, 1 when a read fails after `stdin` or when the
      connection takes less than all frames, and none while it still waits. */
  method PushStdin(stdin: seq<Chunk>, readFails: bool, stream: Sink) returns (code: Option<nat>, used: nat)
    modifies stream
    ensures used <= |stdin| && (forall i :: 0 <= i < used ==> stdin[i] != [])
    ensures stream.data == old(stream.data) + Upto(WireAll(Frames(stdin[..used])), old(stream.room))
    ensures code ==
      if |WireAll(Frames(stdin[..used]))| > old(stream.room) then Some(1)
      else if used < |stdin| then Some(0)
      else if readFails then Some(1)
      else None
    ensures code == Some(0) ==> stdin[used] == []
  {
    code, used := None, 0;
    ghost var start, room := stream.data, stream.room;
    assert start + WireAll(Frames([])) == start;
    while used < |stdin| && |stdin[used]| > 0
      invariant used <= |stdin|
      invariant forall i :: 0 <= i < used ==> stdin[i] != []
      invariant |WireAll(Frames(stdin[..used]))| <= room
      invariant stream.data == start + WireAll(Frames(stdin[..used]))
      invariant stream.room == room - |WireAll(Frames(stdin[..used]))|
    {
      assert stdin[..used + 1] == stdin[..used] + [stdin[used]];
      FrameTaken(start, stdin[..used], stdin[used], room);
      var ok := Send(stream, Push(stdin[used]));
      used := used + 1;
      if !ok {
        return Some(1), used;
      }
    }
    if used < |stdin| {
      code := Some(0);
    } else if readFails {
      code := Some(1);
    }
  }

  /** End to end: every frame is within the decoder's limit, and what the
      daemon decodes, however the connection cuts the bytes, spells out
      standard input; part of the bytes spell out a prefix of it. */
  lemma PushEndToEnd(stdin: seq<Chunk>, arrived: seq<byte>, coming: seq<byte>)
    requires forall i :: 0 <= i < |stdin| ==> |stdin[i]| <= PUSH_CHUNK_SIZE
    requires arrived + coming == WireAll(Frames(stdin))
    ensures var p := Parse(arrived, DEFAULT_MAX_FRAME_LEN);
      && !p.failed
      && p.msgs <= Frames(stdin)
      && PushedBytes(p.msgs) <= Flatten(stdin)
      && (coming == [] ==> PushedBytes(p.msgs) == Flatten(stdin) && p.rest == [])
  {
    var ms := Frames(stdin);
    PrefixOfStream(ms, arrived, coming, DEFAULT_MAX_FRAME_LEN);
    FramesCarry(stdin);
    var got := Parse(arrived, DEFAULT_MAX_FRAME_LEN).msgs;
    assert ms == got + ms[|got|..];
    PushedBytesConcat(got, ms[|got|..]);
  }

  /** Sent as one frame instead, input longer than the decoder's limit would
      never be read back. */
  lemma OneFrameTooLong(stdin: seq<byte>)
    ensures Parse(WireAll([Push(stdin)]), DEFAULT_MAX_FRAME_LEN) == Parsed([Push(stdin)], false, [])
       <==> |stdin| <= 65536
  {
    var ms := [Push(stdin)];
    StreamRoundTrip(ms, DEFAULT_MAX_FRAME_LEN);
    assert Push(stdin) in ms;
  }
}
