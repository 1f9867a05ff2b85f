/** Replaying a rotated log: a terminal that starts on the log's first byte
    ends in the state it would be in had it seen the whole history. */
module LogReplay {
  import opened Bytes
  import opened Rotation
  import opened SessionLogs

  /** Which input a terminal accepts: control sequences of at most `csiLimit`
      bytes and two-byte escapes when `escapes`, plain UTF-8 text in which ESC
      is one more ASCII character otherwise. */
  datatype Grammar = Grammar(escapes: bool, csiLimit: nat)

  /** What the terminal is in the middle of. `Utf8` awaits `need` more bytes
      of a character, the next one in `lo..hi` (RFC 3629, section 4); `Csi`
      has seen `seen` bytes of a control sequence (ECMA-48, section 5.4). */
  datatype Mode = Ground | Utf8(need: nat, lo: byte, hi: byte) | Escape | Csi(seen: nat)

  function FeedGround(g: Grammar, b: byte): Option<Mode> {
    if b == 0x1b && g.escapes then Some(Escape)
    else if b < 0x80 then Some(Ground)
    else if 0xc2 <= b <= 0xdf then Some(Utf8(1, 0x80, 0xbf))
    else if b == 0xe0 then Some(Utf8(2, 0xa0, 0xbf))
    else if b == 0xed then Some(Utf8(2, 0x80, 0x9f))
    else if 0xe1 <= b <= 0xef then Some(Utf8(2, 0x80, 0xbf))
    else if b == 0xf0 then Some(Utf8(3, 0x90, 0xbf))
    else if 0xf1 <= b <= 0xf3 then Some(Utf8(3, 0x80, 0xbf))
    else if b == 0xf4 then Some(Utf8(3, 0x80, 0x8f))
    else None
  }

  /** One byte; `None` when the terminal does not accept it. */
  function Feed(g: Grammar, m: Mode, b: byte): Option<Mode> {
    match m
    case Ground => FeedGround(g, b)
    case Utf8(need, lo, hi) =>
      if !(lo <= b <= hi) then None
      else if need <= 1 then Some(Ground)
      else Some(Utf8(need - 1, 0x80, 0xbf))
    case Escape =>
      if b == 0x5b then (if g.csiLimit >= 3 then Some(Csi(2)) else None)
      else if 0x30 <= b <= 0x7e then Some(Ground)
      else None
    case Csi(seen) =>
      if 0x40 <= b <= 0x7e then Some(Ground)
      else if 0x20 <= b <= 0x3f && seen + 1 < g.csiLimit then Some(Csi(seen + 1))
      else None
  }

  function Run(g: Grammar, m: Mode, s: seq<byte>): Option<Mode>
    decreases |s|
  {
    if s == [] then Some(m)
    else match Feed(g, m, s[0])
         case None => None
         case Some(m') => Run(g, m', s[1..])
  }

  /** A history the terminal accepts from the ground, possibly breaking off
      inside a character or an escape sequence. */
  predicate Accepted(g: Grammar, h: seq<byte>) {
    Run(g, Ground, h).Some?
  }

  function ModeAt(g: Grammar, h: seq<byte>, p: nat): Mode
    requires p <= |h| && Accepted(g, h)
  {
    RunConcat(g, Ground, h[..p], h[p..]);
    assert h == h[..p] + h[p..];
    Run(g, Ground, h[..p]).value
  }

  lemma {:induction false} RunConcat(g: Grammar, m: Mode, a: seq<byte>, b: seq<byte>)
    ensures Run(g, m, a + b)
         == (match Run(g, m, a) case None => None case Some(m') => Run(g, m', b))
    decreases |a|
  {
    if a == [] {
      assert a + b == b;
    } else {
      assert (a + b)[1..] == a[1..] + b;
      match Feed(g, m, a[0]) {
        case None =>
        case Some(m') => RunConcat(g, m', a[1..], b);
      }
    }
  }

  lemma ModeStep(g: Grammar, h: seq<byte>, p: nat)
    requires p < |h| && Accepted(g, h)
    ensures Feed(g, ModeAt(g, h, p), h[p]) == Some(ModeAt(g, h, p + 1))
  {
    assert h[..p + 1] == h[..p] + [h[p]];
    RunConcat(g, Ground, h[..p], [h[p]]);
    assert [h[p]][1..] == [];
    assert h == h[..p + 1] + h[p + 1..];
    RunConcat(g, Ground, h[..p + 1], h[p + 1..]);
  }

  /** What the mode says about the bytes just seen. */
  ghost predicate Witness(g: Grammar, h: seq<byte>, p: nat, m: Mode)
    requires p <= |h|
  {
    match m
    case Ground => true
    case Utf8(need, lo, hi) => 1 <= need <= 3 && 0x80 <= lo && hi <= 0xbf
    case Escape => p >= 1 && h[p - 1] == ESC
    case Csi(seen) =>
      && 2 <= seen <= p && seen < g.csiLimit
      && h[p - seen] == ESC && h[p - seen + 1] == BRACKET
      && forall i :: p - seen + 2 <= i < p ==> 0x20 <= h[i] <= 0x3f
  }

  lemma {:induction false} ModeWitness(g: Grammar, h: seq<byte>, p: nat)
    requires p <= |h| && Accepted(g, h)
    ensures Witness(g, h, p, ModeAt(g, h, p))
    decreases p
  {
    if p == 0 {
      assert h[..0] == [];
    } else {
      ModeWitness(g, h, p - 1);
      ModeStep(g, h, p - 1);
    }
  }

  /** ESC is only ever accepted between tokens. */
  lemma EscapeAtGround(g: Grammar, h: seq<byte>, e: nat)
    requires e < |h| && Accepted(g, h) && h[e] == ESC
    ensures ModeAt(g, h, e) == Ground
  {
    ModeStep(g, h, e);
    ModeWitness(g, h, e);
  }

  /** Skipping continuation bytes ends between tokens, unless the history
      breaks off inside the character. */
  lemma {:induction false} SkipReachesGround(g: Grammar, h: seq<byte>, p: nat)
    requires p <= |h| && Accepted(g, h)
    requires ModeAt(g, h, p).Ground? || (ModeAt(g, h, p).Utf8? && ModeAt(g, h, p).need <= |h| - p)
    ensures ModeAt(g, h, SkipContinuation(h, p)) == Ground
    ensures SkipContinuation(h, p) <= p + 3
    ensures ModeAt(g, h, p).Utf8? ==> SkipContinuation(h, p) == p + ModeAt(g, h, p).need
    ensures ModeAt(g, h, p).Ground? ==> SkipContinuation(h, p) == p
    decreases |h| - p
  {
    ModeWitness(g, h, p);
    if p < |h| {
      ModeStep(g, h, p);
      if ModeAt(g, h, p).Utf8? {
        SkipReachesGround(g, h, p + 1);
      }
    }
  }

  /** An escape sequence still open at the cut is found within the lookback. */
  lemma OpenEscapeFound(g: Grammar, h: seq<byte>, p: nat)
    requires p <= |h| && Accepted(g, h)
    requires g.csiLimit <= 65
    requires ModeAt(g, h, p).Escape? || ModeAt(g, h, p).Csi?
    ensures OpenEscape(h, p)
  {
    ModeWitness(g, h, p);
    var e := if ModeAt(g, h, p).Escape? then p - 1 else p - ModeAt(g, h, p).seen;
    assert NoEscape(h, e + 1, p);
    LastEscapeIs(h, Lookback(p), p, e);
  }

  lemma SkipBeforeBreak(h: seq<byte>, d: seq<byte>, p: nat)
    requires p <= |h| && (d == [] || !IsContinuation(d[0]))
    ensures SkipContinuation(h + d, p) == SkipContinuation(h, p)
  {
    var s := SkipContinuation(h, p);
    SkipContinuationSkips(h, p);
    assert forall i :: 0 <= i < |h| ==> (h + d)[i] == h[i];
    SkipContinuationStops(h + d, p, s);
  }

  /** Token safety, also when the output breaks off anywhere and `d` follows:
      while the cap has room for `d` and the end of a character, the rotation
      starts between tokens of the output. */
  lemma CutBeforeBreak(g: Grammar, h: seq<byte>, d: seq<byte>, cap: nat)
    requires Accepted(g, h) && (d == [] || !IsContinuation(d[0]))
    requires g.csiLimit <= 65 && cap >= |d| + 3
    ensures Cut(h + d, cap) <= |h| && ModeAt(g, h, Cut(h + d, cap)) == Ground
    ensures |h + d| > cap ==> Cut(h + d, cap) <= |h + d| - cap + 3
  {
    if |h + d| <= cap {
      assert h[..0] == [];
    } else {
      var p := |h + d| - cap;
      ModeWitness(g, h, p);
      OpenEscapePrefix(h, d, p);
      LastEscapePrefix(h, d, Lookback(p), p);
      if OpenEscape(h, p) {
        LastEscapeIsLast(h, Lookback(p), p);
        EscapeAtGround(g, h, LastEscape(h, Lookback(p), p).value);
      } else {
        if ModeAt(g, h, p).Escape? || ModeAt(g, h, p).Csi? {
          OpenEscapeFound(g, h, p);
        }
        SkipReachesGround(g, h, p);
        SkipBeforeBreak(h, d, p);
      }
    }
  }

  /** Token safety: a rotation starts between tokens. */
  lemma CutBetweenTokens(g: Grammar, h: seq<byte>, cap: nat)
    requires Accepted(g, h)
    requires g.csiLimit <= 65 && cap >= 3
    ensures ModeAt(g, h, Cut(h, cap)) == Ground
    ensures |h| > cap ==> |Rotate(h, cap)| >= cap - 3
  {
    CutBeforeBreak(g, h, [], cap);
    assert h + [] == h;
  }

  /** A sequence that straddles `p` is what the terminal is in the middle of. */
  lemma {:induction false} StraddleMode(g: Grammar, h: seq<byte>, e: nat, p: nat)
    requires g.escapes && Accepted(g, h) && Straddles(h, e, p)
    ensures ModeAt(g, h, p) == if e + 1 == p then Escape else Csi(p - e)
    decreases p
  {
    EscapeAtGround(g, h, e);
    ModeStep(g, h, p - 1);
    if e + 1 < p {
      StraddleMode(g, h, e, p - 1);
    }
  }

  /** From inside a character skipping stops where the character does, or where
      the history breaks off. */
  lemma {:induction false} SkipCharacter(g: Grammar, h: seq<byte>, p: nat)
    requires p <= |h| && Accepted(g, h) && ModeAt(g, h, p).Utf8?
    ensures var need := ModeAt(g, h, p).need;
      SkipContinuation(h, p) == if p + need <= |h| then p + need else |h|
    decreases |h| - p
  {
    ModeWitness(g, h, p);
    if p < |h| {
      ModeStep(g, h, p);
      if ModeAt(g, h, p + 1).Utf8? {
        SkipCharacter(g, h, p + 1);
      } else {
        SkipReachesGround(g, h, p + 1);
      }
    }
  }

  /** Where accepted output is cut, by what the terminal is in the middle of at
      the boundary: nowhere else between tokens, at the end of a character, and
      at the ESC of an escape sequence. So plain or coloured text is cut at the
      boundary itself, and a sequence that is over never pulls the cut back. */
  lemma CutExact(g: Grammar, h: seq<byte>, cap: nat)
    requires g.escapes && g.csiLimit <= 65 && Accepted(g, h) && |h| > cap
    ensures var p, c := |h| - cap, Cut(h, cap);
      && (c < p <==> ModeAt(g, h, p).Escape? || ModeAt(g, h, p).Csi?)
      && match ModeAt(g, h, p)
         case Ground => c == p
         case Utf8(need, _, _) => c == if p + need <= |h| then p + need else |h|
         case Escape => c == p - 1
         case Csi(seen) => c == p - seen
  {
    var p := |h| - cap;
    var m := ModeAt(g, h, p);
    SafeStartOnBytes(h, p);
    ModeWitness(g, h, p);
    forall e: nat | Straddles(h, e, p) ensures m.Escape? || m.Csi? {
      StraddleMode(g, h, e, p);
    }
    match m {
      case Ground => SkipReachesGround(g, h, p);
      case Utf8(_, _, _) => SkipCharacter(g, h, p);
      case Escape => assert Straddles(h, p - 1, p);
      case Csi(seen) => assert Straddles(h, p - seen, p);
    }
  }

  /** A log starting between tokens replays to the history's own mode. */
  lemma ReplayFromGround(g: Grammar, h: seq<byte>, c: nat)
    requires c <= |h| && Accepted(g, h) && ModeAt(g, h, c) == Ground
    ensures Run(g, Ground, h[c..]) == Run(g, Ground, h)
  {
    assert h == h[..c] + h[c..];
    RunConcat(g, Ground, h[..c], h[c..]);
  }

  /** In accepted output at most three continuation bytes are in a row. */
  lemma {:induction false} ContinuationRun(g: Grammar, h: seq<byte>, p: nat, n: nat)
    requires p + n <= |h| && Accepted(g, h) && AllContinuation(h, p, p + n)
    ensures n <= if ModeAt(g, h, p).Utf8? then ModeAt(g, h, p).need else 0
    ensures n <= 3
    decreases n
  {
    ModeWitness(g, h, p);
    if n > 0 {
      ModeStep(g, h, p);
      if ModeAt(g, h, p).Utf8? {
        ContinuationRun(g, h, p + 1, n - 1);
      }
    }
  }

  lemma AcceptedIndependent(g: Grammar, h: seq<byte>, cap: nat)
    requires Accepted(g, h) && (cap == 0 || cap >= 3)
    ensures Independent(h, cap)
  {
    IndependenceExact(h, cap);
    if s: nat :| StrayAt(h, cap, s) {
      ContinuationRun(g, h, s - cap, cap + 1);
    }
  }

  lemma {:induction false} CharacterTail(g: Grammar, n: nat)
    requires 1 <= n <= 3
    ensures Run(g, Utf8(n, 0x80, 0xbf), seq(n, i => 0x80)) == Some(Ground)
  {
    var s := seq(n, i => 0x80 as byte);
    assert s[1..] == seq(n - 1, i => 0x80 as byte);
    if n > 1 {
      CharacterTail(g, n - 1);
    }
  }

  /** A whole character, cut where a cap of 1 or 2 falls inside it. */
  lemma SplitCharacterDiffers(g: Grammar, cap: nat)
    requires cap == 1 || cap == 2
    ensures exists h :: Accepted(g, h) && !Independent(h, cap)
  {
    var lead: byte := if cap == 1 then 0xe1 else 0xf1;
    var tail := seq(cap + 1, i => 0x80 as byte);
    var h := [lead] + tail;
    CharacterTail(g, cap + 1);
    assert h[1..] == tail;
    assert Accepted(g, h);
    LastEscapeIsLast(h, 0, 1);
    assert StrayAt(h, cap, cap + 1);
    IndependenceExact(h, cap);
  }

  /** For output a terminal accepts chunking never matters, exactly at the
      caps that can hold the tail of a character. */
  lemma TextIndependenceExact(g: Grammar, cap: nat)
    ensures (forall h | Accepted(g, h) :: Independent(h, cap)) <==> cap == 0 || cap >= 3
  {
    if cap == 0 || cap >= 3 {
      forall h | Accepted(g, h) ensures Independent(h, cap) {
        AcceptedIndependent(g, h, cap);
      }
    } else {
      SplitCharacterDiffers(g, cap);
    }
  }

  /** Over every run, for every chunking: the log is the rotated history, it
      starts between tokens, and a cold replay of it leaves the terminal in
      the mode the whole history leaves it in. */
  lemma ReplayOfRun(g: Grammar, initial: seq<byte>, cap: nat, chunks: seq<Chunk>)
    requires Accepted(g, initial + Flatten(chunks))
    requires g.csiLimit <= 65 && cap >= 3
    ensures var h := initial + Flatten(chunks);
      var file := AppendAll(Rotate(initial, cap), cap, chunks);
      && file == Rotate(h, cap)
      && ModeAt(g, h, |h| - |file|) == Ground
      && Run(g, Ground, file) == Run(g, Ground, h)
  {
    var h := initial + Flatten(chunks);
    AcceptedIndependent(g, h, cap);
    CutBetweenTokens(g, h, cap);
    ReplayFromGround(g, h, Cut(h, cap));
  }

  lemma SuffixOf(h: seq<byte>, d: seq<byte>, c: nat)
    requires c <= |h|
    ensures (h + d)[c..] == h[c..] + d
  {
  }

  /** The same for a run whose output breaks off anywhere and is followed by
      one last chunk, such as an end marker: the chunk is appended whole to
      what rotation keeps of the output, which replays as all of it does. */
  lemma ReplayAcrossBreak(g: Grammar, initial: seq<byte>, cap: nat, chunks: seq<Chunk>, d: Chunk)
    requires var h := initial + Flatten(chunks); Accepted(g, h)
    requires cap >= 3 && (d == [] || !IsContinuation(d[0]))
    ensures var h := initial + Flatten(chunks);
      var file := AppendAll(Rotate(initial, cap), cap, chunks + [d]);
      && file == Rotate(h + d, cap)
      && (g.csiLimit <= 65 && cap >= |d| + 3 ==>
            var c := Cut(h + d, cap);
            && c <= |h| && file == h[c..] + d
            && ModeAt(g, h, c) == Ground && Run(g, Ground, h[c..]) == Run(g, Ground, h))
  {
    var h := initial + Flatten(chunks);
    AcceptedIndependent(g, h, cap);
    AppendAllSnoc(Rotate(initial, cap), cap, chunks, d);
    AppendRefinesRotate(h, d, cap);
    if g.csiLimit <= 65 && cap >= |d| + 3 {
      CutBeforeBreak(g, h, d, cap);
      SuffixOf(h, d, Cut(h + d, cap));
      ReplayFromGround(g, h, Cut(h + d, cap));
    }
  }

  // ---------------------------------------- how far the guarantee reaches

  /** Rotation at `cap` starts between tokens of the output, wherever output
      of grammar `g` breaks off before `d`. */
  ghost predicate SafeFor(g: Grammar, d: seq<byte>, cap: nat) {
    forall h | Accepted(g, h) :: Cut(h + d, cap) <= |h| && ModeAt(g, h, Cut(h + d, cap)) == Ground
  }

  predicate Plain(d: seq<byte>) {
    NoEscape(d, 0, |d|) && (d == [] || !IsContinuation(d[0]))
  }

  /** Exactly the control sequences the lookback can bridge, and exactly the
      caps that can hold what follows and the tail of a character, are safe.
      While output is still coming nothing follows: `d` is empty. */
  lemma TokenSafetyExact(limit: nat, d: seq<byte>, cap: nat)
    requires Plain(d)
    ensures SafeFor(Grammar(true, limit), d, cap) <==> limit <= 65 && cap >= |d| + 3
  {
    var g := Grammar(true, limit);
    if limit <= 65 && cap >= |d| + 3 {
      forall h | Accepted(g, h) ensures Cut(h + d, cap) <= |h| && ModeAt(g, h, Cut(h + d, cap)) == Ground {
        CutBeforeBreak(g, h, d, cap);
      }
    } else if cap < |d| + 3 {
      SmallCapUnsafe(g, d, cap);
    } else {
      LongSequenceUnsafe(g, d, cap);
    }
  }

  lemma PartialCharacter(g: Grammar)
    ensures Run(g, Ground, [0xf0]) == Some(Utf8(3, 0x90, 0xbf))
    ensures Run(g, Ground, [0xf0, 0x90]) == Some(Utf8(2, 0x80, 0xbf))
    ensures Run(g, Ground, [0xf0, 0x90, 0x80]) == Some(Utf8(1, 0x80, 0xbf))
  {
    var a, b, c: seq<byte> := [0xf0], [0x90], [0x80];
    assert a[1..] == b[1..] == c[1..] == [];
    RunConcat(g, Ground, a, b);
    RunConcat(g, Ground, a + b, c);
    assert a + b == [0xf0, 0x90] && a + b + c == [0xf0, 0x90, 0x80];
  }

  /** A smaller cap can drop the start of a character still arriving. */
  lemma SmallCapUnsafe(g: Grammar, d: seq<byte>, cap: nat)
    requires Plain(d) && cap < |d| + 3
    ensures !SafeFor(g, d, cap)
  {
    if cap < |d| {
      assert [] + d == d;
      LastEscapeIsLast(d, Lookback(|d| - cap), |d| - cap);
      assert Accepted(g, []) && Cut([] + d, cap) > 0;
    } else {
      BrokenCharacter(g, d, cap - |d|);
    }
  }

  /** A character broken off after `k + 1` bytes loses its first one. */
  lemma BrokenCharacter(g: Grammar, d: seq<byte>, k: nat)
    requires Plain(d) && k < 3
    ensures !SafeFor(g, d, |d| + k)
  {
    var h: seq<byte> := if k == 0 then [0xf0] else if k == 1 then [0xf0, 0x90] else [0xf0, 0x90, 0x80];
    PartialCharacter(g);
    SkipContinuationStops(h + d, 1, |h|);
    LastEscapeIsLast(h + d, 0, 1);
    assert Cut(h + d, |d| + k) == |h| && h[..|h|] == h;
    assert ModeAt(g, h, |h|) != Ground;
  }

  /** ESC, bracket and `n` parameter bytes: an open control sequence. */
  function LongParameters(n: nat): (s: seq<byte>)
    ensures |s| == n
    ensures forall i :: 0 <= i < n ==> s[i] == 0x30
  {
    seq(n, i => 0x30)
  }

  lemma {:induction false} LongParametersRun(g: Grammar, seen: nat, n: nat)
    requires seen + n < g.csiLimit
    ensures Run(g, Csi(seen), LongParameters(n)) == Some(Csi(seen + n))
    decreases n
  {
    if n > 0 {
      assert LongParameters(n)[1..] == LongParameters(n - 1);
      LongParametersRun(g, seen + 1, n - 1);
    }
  }

  /** A control sequence longer than the lookback is cut in two. */
  lemma LongSequenceUnsafe(g: Grammar, d: seq<byte>, cap: nat)
    requires g.escapes && g.csiLimit > 65 && cap > |d|
    ensures !SafeFor(g, d, cap)
  {
    var open: seq<byte> := [ESC, BRACKET] + LongParameters(ESCAPE_LOOKBACK - 1);
    var rest: seq<byte> := seq(cap - |d|, i => 0x6d);
    var h := open + rest;
    assert open[1..] == [BRACKET] + LongParameters(ESCAPE_LOOKBACK - 1);
    assert open[1..][1..] == LongParameters(ESCAPE_LOOKBACK - 1);
    LongParametersRun(g, 2, ESCAPE_LOOKBACK - 1);
    assert Run(g, Ground, open) == Some(Csi(ESCAPE_LOOKBACK + 1));
    assert h[..|open|] == open;
    RunConcat(g, Ground, open, rest);
    assert rest[0] == 0x6d && Feed(g, Csi(ESCAPE_LOOKBACK + 1), 0x6d) == Some(Ground);
    PlainTextRun(g, cap - |d| - 1);
    assert rest[1..] == seq(cap - |d| - 1, i => 0x6d);
    assert Accepted(g, h);
    LastEscapeIsLast(h + d, 1, |open|);
    assert Cut(h + d, cap) == |open|;
    assert ModeAt(g, h, |open|) == Csi(ESCAPE_LOOKBACK + 1);
  }

  lemma {:induction false} PlainTextRun(g: Grammar, n: nat)
    ensures Run(g, Ground, seq(n, i => 0x6d)) == Some(Ground)
  {
    if n > 0 {
      var s := seq(n, i => 0x6d as byte);
      assert s[1..] == seq(n - 1, i => 0x6d as byte);
      PlainTextRun(g, n - 1);
    }
  }

  // ------------------------------------------------ what a terminal accepts

  const TEXT: Grammar := Grammar(false, 0)

  /** A character's code point; surrogates are none. */
  predicate Scalar(c: nat) {
    c < 0xd800 || 0xe000 <= c < 0x11_0000
  }

  /** UTF-8 as section 3 of RFC 3629 defines it. */
  function Utf8Of(c: nat): (s: seq<byte>)
    requires Scalar(c)
    ensures 1 <= |s| <= 4
  {
    if c < 0x80 then [c]
    else if c < 0x800 then [0xc0 + c / 0x40, 0x80 + c % 0x40]
    else if c < 0x1_0000 then [0xe0 + c / 0x1000, 0x80 + c / 0x40 % 0x40, 0x80 + c % 0x40]
    else [0xf0 + c / 0x4_0000, 0x80 + c / 0x1000 % 0x40, 0x80 + c / 0x40 % 0x40, 0x80 + c % 0x40]
  }

  lemma RunFour(g: Grammar, m: Mode, s: seq<byte>)
    requires 1 <= |s| <= 4
    ensures Run(g, m, s) == (
      var a := Feed(g, m, s[0]);
      if |s| == 1 || a.None? then a else
      var b := Feed(g, a.value, s[1]);
      if |s| == 2 || b.None? then b else
      var c := Feed(g, b.value, s[2]);
      if |s| == 3 || c.None? then c else Feed(g, c.value, s[3]))
    decreases |s|
  {
    if |s| > 1 && Feed(g, m, s[0]).Some? {
      RunFour(g, Feed(g, m, s[0]).value, s[1..]);
    }
  }

  /** Every character is accepted, but for ESC where escapes are. */
  lemma CharacterAccepted(g: Grammar, c: nat)
    requires Scalar(c) && !(g.escapes && c == 0x1b)
    ensures Run(g, Ground, Utf8Of(c)) == Some(Ground)
  {
    RunFour(g, Ground, Utf8Of(c));
  }

  /** So are a two-byte escape and a control sequence within the limit. */
  lemma EscapeAccepted(g: Grammar, b: byte)
    requires g.escapes && 0x30 <= b <= 0x7e && b != 0x5b
    ensures Run(g, Ground, [0x1b, b]) == Some(Ground)
  {
    RunFour(g, Ground, [0x1b, b]);
  }

  lemma {:induction false} ParametersRun(g: Grammar, seen: nat, params: seq<byte>, last: byte)
    requires seen + |params| < g.csiLimit
    requires (forall i :: 0 <= i < |params| ==> 0x20 <= params[i] <= 0x3f) && 0x40 <= last <= 0x7e
    ensures Run(g, Csi(seen), params + [last]) == Some(Ground)
    decreases |params|
  {
    if params == [] {
      assert params + [last] == [last] && [last][1..] == [];
    } else {
      assert (params + [last])[1..] == params[1..] + [last];
      ParametersRun(g, seen + 1, params[1..], last);
    }
  }

  lemma SequenceAccepted(g: Grammar, params: seq<byte>, last: byte)
    requires g.escapes && |params| + 3 <= g.csiLimit
    requires (forall i :: 0 <= i < |params| ==> 0x20 <= params[i] <= 0x3f) && 0x40 <= last <= 0x7e
    ensures Run(g, Ground, [0x1b, 0x5b] + params + [last]) == Some(Ground)
  {
    var open: seq<byte>, rest := [0x1b, 0x5b], params + [last];
    RunFour(g, Ground, open);
    ParametersRun(g, 2, params, last);
    RunConcat(g, Ground, open, rest);
    Reassociate(open, params, [last]);
  }

  /** A text of characters. */
  function TextOf(cs: seq<nat>): seq<byte>
    requires forall c | c in cs :: Scalar(c)
  {
    if cs == [] then [] else Utf8Of(cs[0]) + TextOf(cs[1..])
  }

  lemma TwoBytes(a: int, b: int)
    requires 0xc2 <= a <= 0xdf && 0x80 <= b <= 0xbf
    ensures var c := (a - 0xc0) * 0x40 + (b - 0x80);
      Scalar(c) && Utf8Of(c) == [a, b]
  {
  }

  lemma ThreeBytes(a: int, b: int, d: int)
    requires 0xe0 <= a <= 0xef && 0x80 <= b <= 0xbf && 0x80 <= d <= 0xbf
    requires (a == 0xe0 ==> 0xa0 <= b) && (a == 0xed ==> b <= 0x9f)
    ensures var c := (a - 0xe0) * 0x1000 + (b - 0x80) * 0x40 + (d - 0x80);
      Scalar(c) && Utf8Of(c) == [a, b, d]
  {
  }

  lemma FourBytes(a: int, b: int, d: int, e: int)
    requires 0xf0 <= a <= 0xf4 && 0x80 <= b <= 0xbf && 0x80 <= d <= 0xbf && 0x80 <= e <= 0xbf
    requires (a == 0xf0 ==> 0x90 <= b) && (a == 0xf4 ==> b <= 0x8f)
    ensures var c := (a - 0xf0) * 0x4_0000 + (b - 0x80) * 0x1000 + (d - 0x80) * 0x40 + (e - 0x80);
      Scalar(c) && Utf8Of(c) == [a, b, d, e]
  {
    var c := (a - 0xf0) * 0x4_0000 + (b - 0x80) * 0x1000 + (d - 0x80) * 0x40 + (e - 0x80);
    assert c / 0x40 == (a - 0xf0) * 0x1000 + (b - 0x80) * 0x40 + (d - 0x80);
    assert c / 0x1000 == (a - 0xf0) * 0x40 + (b - 0x80);
  }

  /** An accepted text opens with the bytes of one character. */
  lemma FirstBytes(h: seq<byte>) returns (n: nat)
    requires h != [] && Run(TEXT, Ground, h) == Some(Ground)
    ensures 1 <= n <= 4 && n <= |h| && Run(TEXT, Ground, h[n..]) == Some(Ground)
    ensures forall i :: 1 <= i < n ==> 0x80 <= h[i] <= 0xbf
    ensures n == 1 ==> h[0] < 0x80
    ensures n == 2 ==> 0xc2 <= h[0] <= 0xdf
    ensures n == 3 ==> 0xe0 <= h[0] <= 0xef && (h[0] == 0xe0 ==> 0xa0 <= h[1]) && (h[0] == 0xed ==> h[1] <= 0x9f)
    ensures n == 4 ==> 0xf0 <= h[0] <= 0xf4 && (h[0] == 0xf0 ==> 0x90 <= h[1]) && (h[0] == 0xf4 ==> h[1] <= 0x8f)
  {
    n := if h[0] < 0x80 then 1 else if h[0] < 0xe0 then 2 else if h[0] < 0xf0 then 3 else 4;
    var m := if |h| < n then |h| else n;
    assert h == h[..m] + h[m..];
    RunFour(TEXT, Ground, h[..m]);
    RunConcat(TEXT, Ground, h[..m], h[m..]);
  }

  lemma FirstCharacter(h: seq<byte>) returns (c: nat)
    requires h != [] && Run(TEXT, Ground, h) == Some(Ground)
    ensures Scalar(c) && Utf8Of(c) <= h && Run(TEXT, Ground, h[|Utf8Of(c)|..]) == Some(Ground)
  {
    var n := FirstBytes(h);
    if n == 1 {
      c := h[0];
    } else if n == 2 {
      TwoBytes(h[0], h[1]);
      c := (h[0] as int - 0xc0) * 0x40 + (h[1] as int - 0x80);
    } else if n == 3 {
      ThreeBytes(h[0], h[1], h[2]);
      c := (h[0] as int - 0xe0) * 0x1000 + (h[1] as int - 0x80) * 0x40 + (h[2] as int - 0x80);
    } else {
      FourBytes(h[0], h[1], h[2], h[3]);
      c := (h[0] as int - 0xf0) * 0x4_0000 + (h[1] as int - 0x80) * 0x1000 + (h[2] as int - 0x80) * 0x40
           + (h[3] as int - 0x80);
    }
    assert h[..n] == Utf8Of(c);
  }

  /** Accepted plain text is exactly UTF-8. */
  lemma {:induction false} TextIsUtf8(h: seq<byte>)
    ensures Run(TEXT, Ground, h) == Some(Ground)
       <==> exists cs :: (forall c | c in cs :: Scalar(c)) && h == TextOf(cs)
    decreases |h|
  {
    if Run(TEXT, Ground, h) == Some(Ground) {
      var cs := Characters(h);
    }
    if cs :| (forall c | c in cs :: Scalar(c)) && h == TextOf(cs) {
      TextAccepted(cs);
    }
  }

  lemma {:induction false} Characters(h: seq<byte>) returns (cs: seq<nat>)
    requires Run(TEXT, Ground, h) == Some(Ground)
    ensures (forall c | c in cs :: Scalar(c)) && h == TextOf(cs)
    decreases |h|
  {
    if h == [] {
      cs := [];
    } else {
      var c := FirstCharacter(h);
      var rest := Characters(h[|Utf8Of(c)|..]);
      TextCons(c, rest);
      cs := [c] + rest;
      assert h == Utf8Of(c) + h[|Utf8Of(c)|..];
    }
  }

  lemma TextCons(c: nat, rest: seq<nat>)
    requires Scalar(c) && forall x | x in rest :: Scalar(x)
    ensures forall x | x in [c] + rest :: Scalar(x)
    ensures TextOf([c] + rest) == Utf8Of(c) + TextOf(rest)
  {
    assert ([c] + rest)[1..] == rest;
  }

  lemma {:induction false} TextAccepted(cs: seq<nat>)
    requires forall c | c in cs :: Scalar(c)
    ensures Run(TEXT, Ground, TextOf(cs)) == Some(Ground)
  {
    if cs != [] {
      assert cs[0] in cs;
      CharacterAccepted(TEXT, cs[0]);
      TextAccepted(cs[1..]);
      RunConcat(TEXT, Ground, Utf8Of(cs[0]), TextOf(cs[1..]));
    }
  }

  // ------------------------------------------------------------ plain text

  /** Valid UTF-8 stays valid, with any escapes in it, and a rotation keeps all
      but at most three of the bytes the cap allows. */
  lemma RotateKeepsUtf8(h: seq<byte>, cap: nat)
    requires Run(TEXT, Ground, h) == Some(Ground) && cap >= 3
    ensures Run(TEXT, Ground, Rotate(h, cap)) == Some(Ground)
    ensures |h| > cap ==> |Rotate(h, cap)| >= cap - 3
  {
    CutBetweenTokens(TEXT, h, cap);
    ReplayFromGround(TEXT, h, Cut(h, cap));
  }
}
