/** The framed control protocol: what a message looks like on the wire, and
    an incremental decoder that agrees with parsing the whole stream. */
module Codec {
  import opened Bytes

  datatype RedrawMethod = Unspecified | NoRedraw | CtrlL | SigWinch

  datatype Message =
    | Push(payload: Chunk)
    | Attach(skipRing: bool)
    | Detach
    | Winch(rows: u16, cols: u16)
    | Redraw(how: RedrawMethod, rows: u16, cols: u16)
    | Kill(signal: byte)

  const DEFAULT_MAX_FRAME_LEN: nat := 64 * 1024
  const HEADER_LEN: nat := 5
  const U32: nat := 0x1_0000_0000

  const TYPE_PUSH: byte := 0
  const TYPE_ATTACH: byte := 1
  const TYPE_DETACH: byte := 2
  const TYPE_WINCH: byte := 3
  const TYPE_REDRAW: byte := 4
  const TYPE_KILL: byte := 5

  function RedrawToByte(m: RedrawMethod): byte {
    match m
    case Unspecified => 0
    case NoRedraw => 1
    case CtrlL => 2
    case SigWinch => 3
  }

  function RedrawFromByte(b: byte): Option<RedrawMethod> {
    match b
    case 0 => Some(Unspecified)
    case 1 => Some(NoRedraw)
    case 2 => Some(CtrlL)
    case 3 => Some(SigWinch)
    case _ => None
  }

  // -------------------------------------------------------- the wire format

  function Be16(n: u16): (s: seq<byte>)
    ensures |s| == 2
  {
    [n / 0x100, n % 0x100]
  }

  function FromBe16(s: seq<byte>): u16
    requires |s| == 2
  {
    s[0] as int * 0x100 + s[1] as int
  }

  function Be32(n: nat): (s: seq<byte>)
    requires n < U32
    ensures |s| == 4
  {
    Be16(n / 0x1_0000) + Be16(n % 0x1_0000)
  }

  function FromBe32(s: seq<byte>): (n: nat)
    requires |s| == 4
    ensures n < U32
  {
    FromBe16(s[0..2]) as int * 0x1_0000 + FromBe16(s[2..4]) as int
  }

  lemma BigEndianRoundTrip(n: nat)
    requires n < U32
    ensures FromBe32(Be32(n)) == n
    ensures n < 0x1_0000 ==> FromBe16(Be16(n)) == n
  {
    assert Be32(n)[0..2] == Be16(n / 0x1_0000) && Be32(n)[2..4] == Be16(n % 0x1_0000);
  }

  lemma BigEndianReencode(s: seq<byte>)
    ensures |s| == 2 ==> Be16(FromBe16(s)) == s
  {
  }

  lemma HalvesOfWord(a: u16, b: u16)
    ensures (a as int * 0x1_0000 + b as int) / 0x1_0000 == a
    ensures (a as int * 0x1_0000 + b as int) % 0x1_0000 == b
  {
  }

  lemma LengthReencode(s: seq<byte>)
    requires |s| == 4
    ensures Be32(FromBe32(s)) == s
  {
    var a, b := s[0..2], s[2..4];
    BigEndianReencode(a);
    BigEndianReencode(b);
    HalvesOfWord(FromBe16(a), FromBe16(b));
    assert s == a + b;
  }

  function TypeOf(m: Message): byte {
    match m
    case Push(_) => TYPE_PUSH
    case Attach(_) => TYPE_ATTACH
    case Detach => TYPE_DETACH
    case Winch(_, _) => TYPE_WINCH
    case Redraw(_, _, _) => TYPE_REDRAW
    case Kill(_) => TYPE_KILL
  }

  function PayloadOf(m: Message): seq<byte> {
    match m
    case Push(payload) => payload
    case Attach(skip) => [if skip then 1 else 0]
    case Detach => []
    case Winch(rows, cols) => Be16(rows) + Be16(cols)
    case Redraw(how, rows, cols) => [RedrawToByte(how)] + Be16(rows) + Be16(cols)
    case Kill(signal) => [signal]
  }

  /** Type byte and length; a length that does not fit 32 bits is truncated. */
  function Header(ty: byte, len: nat): (s: seq<byte>)
    ensures |s| == HEADER_LEN
  {
    [ty] + Be32(len % U32)
  }

  function Wire(m: Message): seq<byte> {
    Header(TypeOf(m), |PayloadOf(m)|) + PayloadOf(m)
  }

  function WireAll(ms: seq<Message>): seq<byte> {
    if ms == [] then [] else Wire(ms[0]) + WireAll(ms[1..])
  }

  lemma {:induction false} WireAllConcat(a: seq<Message>, b: seq<Message>)
    ensures WireAll(a + b) == WireAll(a) + WireAll(b)
  {
    if a == [] {
      assert a + b == b;
    } else {
      assert (a + b)[1..] == a[1..] + b;
      WireAllConcat(a[1..], b);
      Reassociate(Wire(a[0]), WireAll(a[1..]), WireAll(b));
    }
  }

  lemma WireAllSnoc(ms: seq<Message>, m: Message)
    ensures WireAll(ms + [m]) == WireAll(ms) + Wire(m)
  {
    WireAllConcat(ms, [m]);
    assert [m][1..] == [];
  }

  /** The bytes a list of messages pushes. */
  function PushedBytes(ms: seq<Message>): seq<byte> {
    if ms == [] then []
    else (if ms[0].Push? then ms[0].payload else []) + PushedBytes(ms[1..])
  }

  lemma {:induction false} PushedBytesConcat(a: seq<Message>, b: seq<Message>)
    ensures PushedBytes(a + b) == PushedBytes(a) + PushedBytes(b)
  {
    if a == [] {
      assert a + b == b;
    } else {
      assert (a + b)[1..] == a[1..] + b;
      PushedBytesConcat(a[1..], b);
      Reassociate(if a[0].Push? then a[0].payload else [], PushedBytes(a[1..]), PushedBytes(b));
    }
  }

  lemma PushedPrefix(got: seq<Message>, ms: seq<Message>)
    requires got <= ms
    ensures PushedBytes(got) <= PushedBytes(ms)
  {
    assert ms == got + ms[|got|..];
    PushedBytesConcat(got, ms[|got|..]);
  }

  // ------------------------------------------------- parsing a whole stream

  /** The message a complete frame carries; `None` when it is malformed. */
  function PayloadMessage(ty: byte, p: seq<byte>): Option<Message> {
    if ty == TYPE_PUSH then Some(Push(p))
    else if ty == TYPE_ATTACH then (if |p| == 1 then Some(Attach(p[0] != 0)) else None)
    else if ty == TYPE_DETACH then (if |p| == 0 then Some(Detach) else None)
    else if ty == TYPE_WINCH then
      (if |p| == 4 then Some(Winch(FromBe16(p[0..2]), FromBe16(p[2..4]))) else None)
    else if ty == TYPE_REDRAW then
      if |p| == 5 && RedrawFromByte(p[0]).Some? then
        Some(Redraw(RedrawFromByte(p[0]).value, FromBe16(p[1..3]), FromBe16(p[3..5])))
      else None
    else if ty == TYPE_KILL then (if |p| == 1 then Some(Kill(p[0])) else None)
    else None
  }

  /** What the front of a byte string holds: too little, something that can
      never become a message, or a message and the frame's length. */
  datatype Front = Short | Malformed | Frame(msg: Message, size: nat)

  function ScanFront(s: seq<byte>, maxLen: nat): (r: Front)
    ensures r.Frame? ==> HEADER_LEN <= r.size <= |s|
  {
    if |s| < HEADER_LEN then Short
    else
      var len := FromBe32(s[1..5]);
      if len > maxLen then Malformed
      else if |s| < HEADER_LEN + len then Short
      else match PayloadMessage(s[0], s[HEADER_LEN..HEADER_LEN + len])
           case None => Malformed
           case Some(m) => Frame(m, HEADER_LEN + len)
  }

  /** What the front of a byte string holds, byte by byte: a big-endian length
      over the limit is an error at once, a shorter string waits, and a whole
      frame is a message exactly when its type is known and its payload has
      that type's length and, for a redraw, a known method. */
  lemma FrontExact(s: seq<byte>, maxLen: nat)
    ensures |s| < 5 ==> ScanFront(s, maxLen) == Short
    ensures |s| >= 5 ==>
      var len := ((s[1] as int * 256 + s[2] as int) * 256 + s[3] as int) * 256 + s[4] as int;
      var front := ScanFront(s, maxLen);
      && (front == Short <==> len <= maxLen && |s| < 5 + len)
      && (front.Frame? <==>
            && len <= maxLen && 5 + len <= |s|
            && (s[0] == 0 || (s[0] == 1 && len == 1) || (s[0] == 2 && len == 0) || (s[0] == 3 && len == 4)
                || (s[0] == 4 && len == 5 && s[5] <= 3) || (s[0] == 5 && len == 1)))
      && (front.Frame? ==> front.size == 5 + len && Carries(front.msg, s[0], s[5..5 + len]))
  {
    if |s| >= 5 {
      assert s[1..5][0..2] == s[1..3] && s[1..5][2..4] == s[3..5];
    }
  }

  /** A payload of type `ty` carries `m`: rows before columns, high byte first. */
  predicate Carries(m: Message, ty: byte, p: seq<byte>) {
    match m
    case Push(payload) => ty == 0 && payload == p
    case Attach(skip) => ty == 1 && |p| == 1 && (skip <==> p[0] != 0)
    case Detach => ty == 2 && p == []
    case Winch(rows, cols) =>
      && ty == 3 && |p| == 4
      && rows == p[0] as int * 256 + p[1] as int && cols == p[2] as int * 256 + p[3] as int
    case Redraw(how, rows, cols) =>
      && ty == 4 && |p| == 5
      && (how == Unspecified <==> p[0] == 0) && (how == NoRedraw <==> p[0] == 1)
      && (how == CtrlL <==> p[0] == 2) && (how == SigWinch <==> p[0] == 3)
      && rows == p[1] as int * 256 + p[2] as int && cols == p[3] as int * 256 + p[4] as int
    case Kill(signal) => ty == 5 && p == [signal]
  }

  /** Messages in order, then either bytes waiting for more, or an error. */
  datatype Parsed = Parsed(msgs: seq<Message>, failed: bool, rest: seq<byte>)

  function Parse(s: seq<byte>, maxLen: nat): Parsed
    decreases |s|
  {
    match ScanFront(s, maxLen)
    case Short => Parsed([], false, s)
    case Malformed => Parsed([], true, [])
    case Frame(m, size) =>
      var tail := Parse(s[size..], maxLen);
      tail.(msgs := [m] + tail.msgs)
  }

  lemma ScanFrontStable(a: seq<byte>, b: seq<byte>, maxLen: nat)
    ensures !ScanFront(a, maxLen).Short? ==> ScanFront(a + b, maxLen) == ScanFront(a, maxLen)
  {
    if |a| >= HEADER_LEN {
      assert (a + b)[1..5] == a[1..5];
      var len := FromBe32(a[1..5]);
      if HEADER_LEN + len <= |a| {
        assert (a + b)[HEADER_LEN..HEADER_LEN + len] == a[HEADER_LEN..HEADER_LEN + len];
      }
    }
  }

  /** Parsing can stop anywhere and go on from its leftover: an error stays,
      and otherwise what follows depends only on the leftover. */
  lemma {:induction false} ParseSplit(a: seq<byte>, b: seq<byte>, maxLen: nat)
    ensures var pa := Parse(a, maxLen);
      if pa.failed then Parse(a + b, maxLen) == pa
      else
        var pb := Parse(pa.rest + b, maxLen);
        Parse(a + b, maxLen) == Parsed(pa.msgs + pb.msgs, pb.failed, pb.rest)
    decreases |a|
  {
    ScanFrontStable(a, b, maxLen);
    match ScanFront(a, maxLen) {
      case Short =>
        var pb := Parse(a + b, maxLen);
        assert [] + pb.msgs == pb.msgs;
      case Malformed =>
      case Frame(m, size) =>
        assert (a + b)[size..] == a[size..] + b;
        ParseSplit(a[size..], b, maxLen);
        var pa := Parse(a[size..], maxLen);
        var pb := Parse(pa.rest + b, maxLen);
        assert [m] + (pa.msgs + pb.msgs) == [m] + pa.msgs + pb.msgs;
    }
  }

  /** While waiting, the decoder holds less than one frame. */
  lemma {:induction false} LeftoverBound(s: seq<byte>, maxLen: nat)
    ensures |Parse(s, maxLen).rest| < HEADER_LEN + maxLen
    ensures !Parse(s, maxLen).failed ==> ScanFront(Parse(s, maxLen).rest, maxLen) == Short
    decreases |s|
  {
    match ScanFront(s, maxLen) {
      case Short =>
      case Malformed =>
      case Frame(m, size) => LeftoverBound(s[size..], maxLen);
    }
  }

  // ------------------------------------------------------------ round trips

  /** The messages a decoder limited to `maxLen` can receive. */
  predicate Fits(m: Message, maxLen: nat) {
    |PayloadOf(m)| <= maxLen && |PayloadOf(m)| < U32
  }

  /** The bytes of a frame, position by position: type, big-endian length, and
      rows before columns, high byte first. */
  lemma FrameLayout(m: Message)
    requires |PayloadOf(m)| < U32
    ensures var w := Wire(m);
      && |w| == 5 + |PayloadOf(m)|
      && ((w[1] as int * 256 + w[2] as int) * 256 + w[3] as int) * 256 + w[4] as int == |PayloadOf(m)|
      && Carries(m, w[0], w[5..])
      && (m == Attach(true) ==> w[5] == 1)
  {
    var len := |PayloadOf(m)|;
    assert len % U32 == len;
    LengthBytes(len);
    assert Wire(m)[1..5] == Be32(len);
    assert Wire(m)[5..] == PayloadOf(m);
  }

  lemma LengthBytes(n: nat)
    requires n < U32
    ensures var b := Be32(n);
      ((b[0] as int * 256 + b[1] as int) * 256 + b[2] as int) * 256 + b[3] as int == n
  {
    var hi, lo := n / 0x1_0000, n % 0x1_0000;
    assert Be32(n)[0..2] == Be16(hi) && Be32(n)[2..4] == Be16(lo);
    assert hi / 256 * 256 + hi % 256 == hi && lo / 256 * 256 + lo % 256 == lo;
  }

  lemma PayloadRoundTrip(m: Message)
    ensures PayloadMessage(TypeOf(m), PayloadOf(m)) == Some(m)
  {
    match m {
      case Push(_) =>
      case Attach(_) =>
      case Detach =>
      case Winch(rows, cols) =>
        var p := PayloadOf(m);
        assert p[0..2] == Be16(rows) && p[2..4] == Be16(cols);
      case Redraw(_, rows, cols) =>
        var p := PayloadOf(m);
        assert p[1..3] == Be16(rows) && p[3..5] == Be16(cols);
      case Kill(_) =>
    }
  }

  /** A frame followed by anything is read back exactly when it fits. */
  lemma WireRoundTrip(m: Message, rest: seq<byte>, maxLen: nat)
    ensures ScanFront(Wire(m) + rest, maxLen) == Frame(m, |Wire(m)|) <==> Fits(m, maxLen)
  {
    var s, len := Wire(m) + rest, |PayloadOf(m)| % U32;
    assert s[1..5] == Be32(len);
    BigEndianRoundTrip(len);
    if |PayloadOf(m)| < U32 {
      assert s[HEADER_LEN..HEADER_LEN + len] == PayloadOf(m);
      PayloadRoundTrip(m);
    } else {
      assert ScanFront(s, maxLen).Frame? ==> ScanFront(s, maxLen).size == HEADER_LEN + len;
    }
  }

  predicate AllFit(ms: seq<Message>, maxLen: nat) {
    forall m | m in ms :: Fits(m, maxLen)
  }

  /** The stream of `ms` parses to `ms`, with no error and nothing left. */
  predicate ReadsBack(ms: seq<Message>, maxLen: nat) {
    Parse(WireAll(ms), maxLen) == Parsed(ms, false, [])
  }

  lemma ReadsBackFirst(m: Message, ms: seq<Message>, maxLen: nat)
    ensures ReadsBack([m] + ms, maxLen) <==> Fits(m, maxLen) && ReadsBack(ms, maxLen)
  {
    var all, rest := [m] + ms, WireAll(ms);
    assert all[1..] == ms;
    WireRoundTrip(m, rest, maxLen);
    if Fits(m, maxLen) {
      assert (Wire(m) + rest)[|Wire(m)|..] == rest;
      var tail := Parse(rest, maxLen);
      assert Parse(WireAll(all), maxLen) == tail.(msgs := [m] + tail.msgs);
      CancelFront([m], tail.msgs, ms);
    } else {
      OversizedNotReadBack(m, rest, maxLen);
      var p := Parse(WireAll(all), maxLen);
      assert p.msgs != [] ==> p.msgs[0] != all[0];
    }
  }

  /** Encoding any list of messages and parsing the bytes gives the list back
      with nothing left over, if and only if each of them fits. */
  lemma {:induction false} StreamRoundTrip(ms: seq<Message>, maxLen: nat)
    ensures ReadsBack(ms, maxLen) <==> AllFit(ms, maxLen)
    decreases |ms|
  {
    if ms != [] {
      assert ms == [ms[0]] + ms[1..];
      ReadsBackFirst(ms[0], ms[1..], maxLen);
      StreamRoundTrip(ms[1..], maxLen);
    }
  }

  /** A message that does not fit is never the first one read back. */
  lemma OversizedNotReadBack(m: Message, rest: seq<byte>, maxLen: nat)
    requires !Fits(m, maxLen)
    ensures var f := ScanFront(Wire(m) + rest, maxLen); f.Frame? ==> f.msg != m
  {
    var s, len := Wire(m) + rest, |PayloadOf(m)| % U32;
    assert s[1..5] == Be32(len);
    BigEndianRoundTrip(len);
  }

  lemma PayloadReencode(ty: byte, p: seq<byte>)
    requires PayloadMessage(ty, p).Some?
    ensures var m := PayloadMessage(ty, p).value;
      && TypeOf(m) == ty && |PayloadOf(m)| == |p|
      && (PayloadOf(m) == p <==> !(ty == TYPE_ATTACH && p[0] > 1))
  {
    var m := PayloadMessage(ty, p).value;
    match m {
      case Winch(_, _) =>
        BigEndianReencode(p[0..2]);
        BigEndianReencode(p[2..4]);
        assert p == p[0..2] + p[2..4];
      case Redraw(_, _, _) =>
        BigEndianReencode(p[1..3]);
        BigEndianReencode(p[3..5]);
        assert p == [p[0]] + p[1..3] + p[3..5];
      case Attach(_) => assert p == [p[0]];
      case _ =>
    }
  }

  /** The other way round: re-encoding a decoded frame gives back its bytes,
      except for an attach flag above 1, which decodes as set. */
  lemma ReencodeExact(s: seq<byte>, maxLen: nat)
    requires ScanFront(s, maxLen).Frame?
    ensures var f := ScanFront(s, maxLen);
      Wire(f.msg) == s[..f.size] <==> !(s[0] == TYPE_ATTACH && s[5] > 1)
  {
    var f, len := ScanFront(s, maxLen), FromBe32(s[1..5]);
    var p := s[HEADER_LEN..f.size];
    PayloadReencode(s[0], p);
    HeaderReencode(s[0], s[1..5], |p|);
    assert s[..f.size] == [s[0]] + s[1..5] + p;
    CancelFront([s[0]] + s[1..5], PayloadOf(f.msg), p);
  }

  lemma HeaderReencode(ty: byte, lenBytes: seq<byte>, len: nat)
    requires |lenBytes| == 4 && FromBe32(lenBytes) == len
    ensures Header(ty, len) == [ty] + lenBytes
  {
    LengthReencode(lenBytes);
  }

  /** Cutting an encoded stream short loses messages from its end only. */
  lemma PrefixOfStream(ms: seq<Message>, a: seq<byte>, b: seq<byte>, maxLen: nat)
    requires a + b == WireAll(ms) && AllFit(ms, maxLen)
    ensures !Parse(a, maxLen).failed && Parse(a, maxLen).msgs <= ms
    ensures b == [] ==> Parse(a, maxLen) == Parsed(ms, false, [])
  {
    StreamRoundTrip(ms, maxLen);
    ParseSplit(a, b, maxLen);
    if b == [] {
      assert a + b == a;
    }
  }
}
