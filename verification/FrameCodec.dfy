/** The codec over mutable byte buffers, and the framed reader that feeds it
    whatever the socket delivers. */
module FrameCodec {
  import opened Bytes
  import opened Codec

  /** A growable buffer: written at its end, consumed from its front. */
  class ByteBuffer {
    var data: seq<byte>

    constructor (data: seq<byte>)
      ensures this.data == data
    {
      this.data := data;
    }

    method PutU8(b: byte)
      modifies this
      ensures data == old(data) + [b]
    {
      data := data + [b];
    }

    method PutU16(n: u16)
      modifies this
      ensures data == old(data) + Be16(n)
    {
      PutU8(n / 0x100);
      PutU8(n % 0x100);
    }

    method PutU32(n: nat)
      requires n < U32
      modifies this
      ensures data == old(data) + Be32(n)
    {
      PutU16(n / 0x1_0000);
      PutU16(n % 0x1_0000);
    }

    method Extend(bytes: seq<byte>)
      modifies this
      ensures data == old(data) + bytes
    {
      data := data + bytes;
    }

    method SplitTo(n: nat) returns (front: ByteBuffer)
      requires n <= |data|
      modifies this
      ensures fresh(front) && front.data == old(data)[..n]
      ensures data == old(data)[n..]
    {
      front := new ByteBuffer(data[..n]);
      data := data[n..];
    }

    method Advance(n: nat)
      requires n <= |data|
      modifies this
      ensures data == old(data)[n..]
    {
      data := data[n..];
    }

    method GetU8() returns (b: byte)
      requires |data| >= 1
      modifies this
      ensures b == old(data)[0] && data == old(data)[1..]
    {
      b := data[0];
      Advance(1);
    }

    method GetU16() returns (n: u16)
      requires |data| >= 2
      modifies this
      ensures n == FromBe16(old(data)[0..2]) && data == old(data)[2..]
    {
      n := FromBe16(data[0..2]);
      Advance(2);
    }
  }

  /** `Pending`: not enough bytes yet. `Invalid`: the peer broke the protocol. */
  datatype Decoded = Pending | Invalid | Ready(msg: Message)

  method WriteHeader(dst: ByteBuffer, ty: byte, len: nat)
    modifies dst
    ensures dst.data == old(dst.data) + Header(ty, len)
  {
    dst.PutU8(ty);
    dst.PutU32(len % U32);
  }

  method Encode(msg: Message, dst: ByteBuffer)
    modifies dst
    ensures dst.data == old(dst.data) + Wire(msg)
  {
    match msg {
      case Push(payload) =>
        WriteHeader(dst, TYPE_PUSH, |payload|);
        dst.Extend(payload);
      case Attach(skipRing) =>
        WriteHeader(dst, TYPE_ATTACH, 1);
        dst.PutU8(if skipRing then 1 else 0);
      case Detach =>
        WriteHeader(dst, TYPE_DETACH, 0);
      case Winch(rows, cols) =>
        WriteHeader(dst, TYPE_WINCH, 4);
        dst.PutU16(rows);
        dst.PutU16(cols);
      case Redraw(how, rows, cols) =>
        WriteHeader(dst, TYPE_REDRAW, 5);
        dst.PutU8(RedrawToByte(how));
        dst.PutU16(rows);
        dst.PutU16(cols);
      case Kill(signal) =>
        WriteHeader(dst, TYPE_KILL, 1);
        dst.PutU8(signal);
    }
  }

  method DecodePayload(ty: byte, payload: ByteBuffer) returns (r: Decoded)
    modifies payload
    ensures r == (match PayloadMessage(ty, old(payload.data)) case None => Invalid case Some(m) => Ready(m))
  {
    ghost var p := payload.data;
    if ty == TYPE_PUSH {
      r := Ready(Push(payload.data));
    } else if ty == TYPE_ATTACH {
      if |payload.data| != 1 {
        return Invalid;
      }
      r := Ready(Attach(payload.data[0] != 0));
    } else if ty == TYPE_DETACH {
      if |payload.data| != 0 {
        return Invalid;
      }
      r := Ready(Detach);
    } else if ty == TYPE_WINCH {
      if |payload.data| != 4 {
        return Invalid;
      }
      var rows := payload.GetU16();
      var cols := payload.GetU16();
      assert p[2..][0..2] == p[2..4];
      r := Ready(Winch(rows, cols));
    } else if ty == TYPE_REDRAW {
      if |payload.data| != 5 {
        return Invalid;
      }
      var methodByte := payload.GetU8();
      var how := RedrawFromByte(methodByte);
      if how.None? {
        return Invalid;
      }
      var rows := payload.GetU16();
      var cols := payload.GetU16();
      assert p[1..][0..2] == p[1..3] && p[1..][2..][0..2] == p[3..5];
      r := Ready(Redraw(how.value, rows, cols));
    } else if ty == TYPE_KILL {
      if |payload.data| != 1 {
        return Invalid;
      }
      r := Ready(Kill(payload.data[0]));
    } else {
      r := Invalid;
    }
  }

  /** One attempt at a frame: it consumes exactly the frame it reads, and
      nothing while more bytes are needed. */
  method Decode(src: ByteBuffer, maxFrameLen: nat) returns (r: Decoded)
    modifies src
    ensures match ScanFront(old(src.data), maxFrameLen)
      case Short => r == Pending && src.data == old(src.data)
      case Malformed =>
        var len := FromBe32(old(src.data)[1..5]);
        r == Invalid && src.data == old(src.data)[if len > maxFrameLen then 0 else HEADER_LEN + len..]
      case Frame(m, size) => r == Ready(m) && src.data == old(src.data)[size..]
  {
    if |src.data| < HEADER_LEN {
      return Pending;
    }
    var ty := src.data[0];
    var len := FromBe32(src.data[1..5]);
    if len > maxFrameLen {
      return Invalid;
    }
    if |src.data| < HEADER_LEN + len {
      return Pending;
    }
    ghost var s := src.data;
    var frame := src.SplitTo(HEADER_LEN + len);
    frame.Advance(HEADER_LEN);
    assert frame.data == s[HEADER_LEN..HEADER_LEN + len];
    r := DecodePayload(ty, frame);
  }

  /** Decode until nothing more is complete, or until an error. */
  method DecodeAll(src: ByteBuffer, maxFrameLen: nat) returns (msgs: seq<Message>, failed: bool)
    modifies src
    ensures Parse(old(src.data), maxFrameLen) == Parsed(msgs, failed, if failed then [] else src.data)
  {
    msgs := [];
    ghost var whole := Parse(src.data, maxFrameLen);
    while true
      invariant var tail := Parse(src.data, maxFrameLen);
        whole == Parsed(msgs + tail.msgs, tail.failed, tail.rest)
      decreases |src.data|
    {
      ghost var tail := Parse(src.data, maxFrameLen);
      var next := Decode(src, maxFrameLen);
      match next {
        case Pending =>
          return msgs, false;
        case Invalid =>
          return msgs, true;
        case Ready(m) =>
          ghost var later := Parse(src.data, maxFrameLen);
          assert msgs + ([m] + later.msgs) == msgs + [m] + later.msgs;
          msgs := msgs + [m];
      }
    }
  }

  /** The framed reader: append what a read delivered, decode, stop at the
      first error. However the stream is cut, it yields what parsing the whole
      of it yields, and it never holds a whole frame back. */
  method ReadFrames(received: seq<Chunk>, maxFrameLen: nat) returns (p: Parsed)
    ensures p == Parse(Flatten(received), maxFrameLen)
    ensures |p.rest| < HEADER_LEN + maxFrameLen
  {
    LeftoverBound(Flatten(received), maxFrameLen);
    var src := new ByteBuffer([]);
    p := Parsed([], false, []);
    for i := 0 to |received|
      invariant !p.failed
      invariant p.rest == src.data
      invariant p == Parse(Flatten(received[..i]), maxFrameLen)
    {
      assert received[..i + 1] == received[..i] + [received[i]];
      FlattenSnoc(received[..i], received[i]);
      ParseSplit(Flatten(received[..i]), received[i], maxFrameLen);
      src.Extend(received[i]);
      var msgs, failed := DecodeAll(src, maxFrameLen);
      p := Parsed(p.msgs + msgs, failed, if failed then [] else src.data);
      if failed {
        FlattenCut(received, i + 1);
        ParseSplit(Flatten(received[..i + 1]), Flatten(received[i + 1..]), maxFrameLen);
        return;
      }
    }
    assert received[..|received|] == received;
  }
}
