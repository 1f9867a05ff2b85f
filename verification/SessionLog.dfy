/** The persistent log: a file trimmed in place, opened, appended to, and fed
    by the writer thread. */
module SessionLogs {
  import opened Bytes
  import opened Rotation

  // ------------------------------------------------------------ whole runs

  /** The file after opening on `file` and appending `chunks` one by one. */
  function AppendAll(file: seq<byte>, cap: nat, chunks: seq<Chunk>): seq<byte>
    decreases |chunks|
  {
    if chunks == [] then file
    else AppendAll(Rotate(file + chunks[0], cap), cap, chunks[1..])
  }

  lemma {:induction false} AppendAllSnoc(file: seq<byte>, cap: nat, chunks: seq<Chunk>, d: Chunk)
    ensures AppendAll(file, cap, chunks + [d]) == Rotate(AppendAll(file, cap, chunks) + d, cap)
    decreases |chunks|
  {
    if chunks == [] {
      assert (chunks + [d])[1..] == [];
    } else {
      assert (chunks + [d])[1..] == chunks[1..] + [d];
      AppendAllSnoc(Rotate(file + chunks[0], cap), cap, chunks[1..], d);
    }
  }

  /** One append to a rotated log gives what rotating the longer history
      gives, except in exactly one case: rotation leaves nothing of the history
      so far and the next bytes, still within the cap, open with one more
      continuation byte. */
  lemma AppendRefinesRotate(h: seq<byte>, d: seq<byte>, cap: nat)
    ensures Rotate(Rotate(h, cap) + d, cap) == Rotate(h + d, cap)
       <==> !(EndsInRun(h, cap) && 0 < |d| <= cap && IsContinuation(d[0]))
  {
    AppendToRotated(h, d, cap);
    RotateEmpties(h, cap);
  }

  lemma AppendToRotated(h: seq<byte>, d: seq<byte>, cap: nat)
    ensures Rotate(Rotate(h, cap) + d, cap) == Rotate(h + d, cap)
       <==> !(h != [] && Rotate(h, cap) == [] && 0 < |d| <= cap && IsContinuation(d[0]))
  {
    RotatedIsLog(h, cap);
    var log := Rotate(h, cap);
    LogStep(h, cap, Cut(h, cap), log, d);
    LogIsRotated(h + d, cap, Cut(h, cap) + Cut(log + d, cap), Rotate(log + d, cap));
    RotateBounds(h, cap);
    RotateBounds(log + d, cap);
  }

  /** Rotating a rotated log changes nothing. */
  lemma RotateIdempotent(h: seq<byte>, cap: nat)
    ensures Rotate(Rotate(h, cap), cap) == Rotate(h, cap)
  {
    AppendRefinesRotate(h, [], cap);
    assert Rotate(h, cap) + [] == Rotate(h, cap) && h + [] == h;
  }

  /** Where in the history the log starts when it holds a stray byte: an
      append found the log emptied by rotation and opened with a continuation
      byte, and the cap has not been outgrown since. Only the input
      and where it is cut into chunks decide it. */
  function StrayStart(initial: seq<byte>, cap: nat, chunks: seq<Chunk>): Option<nat>
    decreases |chunks|
  {
    if chunks == [] then None
    else
      var init, d := chunks[..|chunks| - 1], chunks[|chunks| - 1];
      var h, before := initial + Flatten(init), StrayStart(initial, cap, init);
      var start := if before.Some? then before.value else |h|;
      var stray := before.Some? || (d != [] && IsContinuation(d[0]) && EndsInRun(h, cap));
      if stray && |h| + |d| <= start + cap then Some(start) else None
  }

  /** `file` is what a log with history `h` holds, given where a stray byte
      starts it. */
  ghost predicate Holds(h: seq<byte>, cap: nat, stray: Option<nat>, file: seq<byte>) {
    match stray
    case None => file == Rotate(h, cap)
    case Some(s) => StrayAt(h, cap, s) && file == h[s..]
  }

  lemma HoldsPossible(h: seq<byte>, cap: nat, stray: Option<nat>, file: seq<byte>)
    requires Holds(h, cap, stray, file)
    ensures file == Rotate(h, cap) <==> stray == None
    ensures exists s :: LogOf(h, cap, s, file)
  {
    match stray {
      case None =>
        RotatedIsLog(h, cap);
        assert LogOf(h, cap, Cut(h, cap), file);
      case Some(s) =>
        StrayIsLog(h, cap, s);
        assert LogOf(h, cap, s, file);
    }
  }

  lemma AppendToEmptied(h: seq<byte>, d: seq<byte>, cap: nat)
    requires EndsInRun(h, cap) && |d| <= cap
    ensures Rotate(Rotate(h, cap) + d, cap) == d
  {
    RotateEmpties(h, cap);
    assert [] + d == d;
    RotateBounds(d, cap);
  }

  /** One append to a log that is in step with its history. */
  lemma HoldsAppend(h: seq<byte>, d: seq<byte>, cap: nat)
    ensures var stray := 0 < |d| <= cap && IsContinuation(d[0]) && EndsInRun(h, cap);
      Holds(h + d, cap, if stray then Some(|h|) else None, Rotate(Rotate(h, cap) + d, cap))
  {
    if 0 < |d| <= cap && IsContinuation(d[0]) && EndsInRun(h, cap) {
      StrayBegins(h, d, cap);
      AppendToEmptied(h, d, cap);
    } else {
      AppendRefinesRotate(h, d, cap);
    }
  }

  /** One append to a log that starts on a stray byte. */
  lemma HoldsStray(h: seq<byte>, d: seq<byte>, cap: nat, s: nat)
    requires StrayAt(h, cap, s)
    ensures Holds(h + d, cap, if |h + d| <= s + cap then Some(s) else None, Rotate(h[s..] + d, cap))
  {
    assert h[s..] + d == (h + d)[s..];
    if |h + d| <= s + cap {
      StrayStays(h, d, cap, s);
    } else {
      StrayIsLog(h, cap, s);
      RotateTail(h, d, cap, s);
    }
  }

  /** What the file holds after any run: the rotated history, or the history
      from the stray byte on. */
  lemma {:induction false} AppendAllHolds(initial: seq<byte>, cap: nat, chunks: seq<Chunk>)
    ensures Holds(initial + Flatten(chunks), cap, StrayStart(initial, cap, chunks),
                  AppendAll(Rotate(initial, cap), cap, chunks))
    decreases |chunks|
  {
    if chunks == [] {
      assert initial + [] == initial;
    } else {
      var init, d := chunks[..|chunks| - 1], chunks[|chunks| - 1];
      assert chunks == init + [d];
      var h := initial + Flatten(init);
      FlattenSnoc(init, d);
      Reassociate(initial, Flatten(init), d);
      AppendAllSnoc(Rotate(initial, cap), cap, init, d);
      AppendAllHolds(initial, cap, init);
      match StrayStart(initial, cap, init) {
        case None => HoldsAppend(h, d, cap);
        case Some(s) => HoldsStray(h, d, cap, s);
      }
    }
  }

  /** Chunking independence of one run, exactly: opening on `initial` and
      appending `chunks` leaves the file one rotation of the whole history
      leaves, if and only if no append starts the log on a stray byte. */
  lemma ChunkingIndependence(initial: seq<byte>, cap: nat, chunks: seq<Chunk>)
    ensures AppendAll(Rotate(initial, cap), cap, chunks) == Rotate(initial + Flatten(chunks), cap)
       <==> StrayStart(initial, cap, chunks) == None
  {
    AppendAllHolds(initial, cap, chunks);
    HoldsPossible(initial + Flatten(chunks), cap, StrayStart(initial, cap, chunks),
                  AppendAll(Rotate(initial, cap), cap, chunks));
  }

  /** However `h` comes in, in an initial file and chunks, the file ends up as
      one rotation of it. */
  ghost predicate Independent(h: seq<byte>, cap: nat) {
    forall initial, chunks | initial + Flatten(chunks) == h ::
      AppendAll(Rotate(initial, cap), cap, chunks) == Rotate(h, cap)
  }

  /** Chunking independence of a history, exactly: the only histories some
      chunking of which leaves another file are those with a run of `cap + 1`
      continuation bytes, no escape sequence open before it, and at most
      `cap - 1` bytes after it. */
  lemma IndependenceExact(h: seq<byte>, cap: nat)
    ensures Independent(h, cap) <==> !exists s :: StrayAt(h, cap, s)
  {
    if s: nat :| StrayAt(h, cap, s) {
      var initial, chunks := h[..s], [h[s..]];
      assert h == h[..s] + h[s..];
      FlattenOne(h[s..]);
      OpenEscapePrefix(h[..s], h[s..], s - cap);
      assert chunks[..0] == [] && initial + [] == initial;
      assert StrayStart(initial, cap, chunks) == Some(s);
      ChunkingIndependence(initial, cap, chunks);
      assert initial + Flatten(chunks) == h;
    } else {
      forall initial, chunks | initial + Flatten(chunks) == h
        ensures AppendAll(Rotate(initial, cap), cap, chunks) == Rotate(h, cap)
      {
        AppendAllHolds(initial, cap, chunks);
      }
    }
  }

  /** A run of more than `cap` continuation bytes from `p` on, not at the very
      start and not inside an escape sequence. */
  predicate LongRunAt(h: seq<byte>, cap: nat, p: nat) {
    0 < p && p + cap < |h| && AllContinuation(h, p, p + cap + 1) && !OpenEscape(h, p)
  }

  /** And at every moment of every run: the file is the rotation of what has
      come in so far, however that comes in, if and only if the history has no
      such run at all (or the cap is zero and the file always empty). */
  lemma IndependenceThroughout(h: seq<byte>, cap: nat)
    ensures (forall n :: 0 <= n <= |h| ==> Independent(h[..n], cap))
       <==> cap == 0 || !exists p :: LongRunAt(h, cap, p)
  {
    if p: nat :| cap > 0 && LongRunAt(h, cap, p) {
      var n := p + cap + 1;
      assert h == h[..n] + h[n..];
      OpenEscapePrefix(h[..n], h[n..], p);
      assert StrayAt(h[..n], cap, p + cap);
      IndependenceExact(h[..n], cap);
    } else {
      forall n | 0 <= n <= |h| ensures Independent(h[..n], cap) {
        forall s: nat | StrayAt(h[..n], cap, s) ensures LongRunAt(h, cap, s - cap) {
          StrayInPrefix(h, cap, n, s);
        }
        IndependenceExact(h[..n], cap);
      }
    }
  }

  lemma StrayInPrefix(h: seq<byte>, cap: nat, n: nat, s: nat)
    requires n <= |h| && StrayAt(h[..n], cap, s)
    ensures LongRunAt(h, cap, s - cap)
  {
    assert h == h[..n] + h[n..];
    OpenEscapePrefix(h[..n], h[n..], s - cap);
    assert forall i :: 0 <= i < n ==> h[..n][i] == h[i];
  }

  /** Why the exception is needed: a stray run of continuation bytes as long
      as the cap empties the log, and a later continuation byte is then kept
      although one rotation of the whole history would skip it. */
  lemma StrayContinuationsDiffer()
    ensures AppendAll(Rotate([0x41, 0x80, 0x80, 0x80, 0x80], 4), 4, [[0x80]]) == [0x80]
    ensures Rotate([0x41, 0x80, 0x80, 0x80, 0x80] + Flatten([[0x80]]), 4) == []
  {
    var h: seq<byte> := [0x41, 0x80, 0x80, 0x80, 0x80];
    SkipContinuationStops(h, 1, 5);
    assert Cut(h, 4) == 5;
    FlattenOne([0x80]);
    var all := h + [0x80];
    SkipContinuationStops(all, 2, 6);
    assert Cut(all, 4) == 6;
    var chunks: seq<Chunk> := [[0x80]];
    assert chunks[1..] == [];
    assert Rotate([0x80], 4) == [0x80];
    assert Rotate(h, 4) + [0x80] == [0x80];
  }

  // ------------------------------------------------------------- the file

  function Overwritten(data: seq<byte>, pos: nat, bytes: seq<byte>): (r: seq<byte>)
    requires pos <= |data|
    ensures pos == |data| ==> r == data + bytes
  {
    var end := pos + |bytes|;
    data[..pos] + bytes + (if end <= |data| then data[end..] else [])
  }

  /** Byte by byte: the new bytes from the cursor on, the old ones elsewhere. */
  lemma OverwrittenAt(data: seq<byte>, pos: nat, bytes: seq<byte>, i: nat)
    requires pos <= |data|
    ensures var r := Overwritten(data, pos, bytes);
      && |r| == (if pos + |bytes| <= |data| then |data| else pos + |bytes|)
      && (i < |r| ==> r[i] == if pos <= i < pos + |bytes| then bytes[i - pos] else data[i])
  {
  }

  /** A regular file with a cursor. */
  class LogFile {
    var data: seq<byte>
    var pos: nat

    constructor (content: seq<byte>)
      ensures data == content && pos == 0
    {
      data, pos := content, 0;
    }

    method SeekEnd() returns (size: nat)
      modifies `pos
      ensures pos == size == |data|
    {
      pos := |data|;
      size := pos;
    }

    method SeekStart(offset: nat)
      modifies `pos
      ensures pos == offset
    {
      pos := offset;
    }

    method Read(n: nat) returns (buf: seq<byte>)
      requires pos <= |data|
      modifies `pos
      ensures pos == if old(pos) + n <= |data| then old(pos) + n else |data|
      ensures buf == data[old(pos)..pos]
    {
      var end := if pos + n <= |data| then pos + n else |data|;
      buf := data[pos..end];
      pos := end;
    }

    method Truncate()
      modifies `data
      ensures data == []
    {
      data := [];
    }

    /** Overwrites from the cursor on, growing the file when needed. */
    method WriteAll(bytes: seq<byte>)
      requires pos <= |data|
      modifies `data, `pos
      ensures pos == old(pos) + |bytes|
      ensures data == Overwritten(old(data), old(pos), bytes)
    {
      data := Overwritten(data, pos, bytes);
      pos := pos + |bytes|;
    }
  }

  method SafeTrimStart(buf: seq<byte>, naiveCut: nat) returns (start: nat)
    requires naiveCut <= |buf|
    ensures start == SafeStart(buf, naiveCut)
    ensures SafeOnBytes(buf, naiveCut, start)
  {
    SafeStartOnBytes(buf, naiveCut);
    var lookbackStart := Lookback(naiveCut);
    var esc := LastEscape(buf, lookbackStart, naiveCut);
    if esc.Some? && !EscapeTerminated(buf, esc.value, naiveCut) {
      return esc.value;
    }
    start := naiveCut;
    while start < |buf| && BitAnd(buf[start], 0xc0) == 0x80
      invariant naiveCut <= start <= |buf|
      invariant SkipContinuation(buf, start) == SkipContinuation(buf, naiveCut)
    {
      ContinuationMask(buf[start]);
      start := start + 1;
    }
    if start < |buf| {
      ContinuationMask(buf[start]);
    }
  }

  lemma WindowRead(h: seq<byte>, cap: nat, lookback: nat, buf: seq<byte>)
    requires |h| > cap && lookback == |h| - cap - Lookback(|h| - cap)
    requires buf == h[|h| - cap - lookback..|h|]
    ensures lookback <= |buf| && buf[SafeStart(buf, lookback)..] == Rotate(h, cap)
  {
    WindowDecides(h, cap, |h| - cap - lookback);
    assert buf == h[|h| - cap - lookback..];
  }

  /** Trim the file in place, reading only its last bytes, and leave the
      cursor at its end. */
  method RotateLogFile(file: LogFile, maxSize: nat)
    modifies file
    ensures file.data == Rotate(old(file.data), maxSize)
    ensures file.pos == |file.data|
  {
    var size := file.SeekEnd();
    if size > maxSize {
      var naiveStart := size - maxSize;
      var lookback := if naiveStart <= ESCAPE_LOOKBACK then naiveStart else ESCAPE_LOOKBACK;
      var readStart := naiveStart - lookback;
      file.SeekStart(readStart);
      var buf := file.Read(maxSize + lookback);
      WindowRead(file.data, maxSize, lookback, buf);
      var safeStart := SafeTrimStart(buf, lookback);
      var tail := buf[safeStart..];
      file.Truncate();
      file.SeekStart(0);
      file.WriteAll(tail);
    }
    var _ := file.SeekEnd();
  }

  class SessionLog {
    const file: LogFile
    const maxSize: nat
    var currentSize: nat
    /** What the log was opened on, and given since. */
    ghost var initial: seq<byte>
    ghost var chunks: seq<Chunk>

    ghost predicate Valid()
      reads this, file
    {
      && currentSize == file.pos == |file.data|
      && file.data == AppendAll(Rotate(initial, maxSize), maxSize, chunks)
    }

    constructor Open(file: LogFile, maxSize: nat)
      modifies file
      ensures Valid()
      ensures this.file == file && this.maxSize == maxSize
      ensures initial == old(file.data) && chunks == []
      ensures file.data == Rotate(old(file.data), maxSize)
    {
      this.file := file;
      this.maxSize := maxSize;
      initial, chunks := file.data, [];
      RotateLogFile(file, maxSize);
      currentSize := |file.data|;
    }

    method Append(data: seq<byte>)
      requires Valid()
      modifies this, file
      ensures Valid()
      ensures initial == old(initial) && chunks == old(chunks) + [data]
      ensures file.data == Rotate(old(file.data) + data, maxSize)
      ensures |file.data| <= maxSize + 64
      ensures file.data == Rotate(initial + Flatten(chunks), maxSize) <==> StrayStart(initial, maxSize, chunks) == None
    {
      ghost var log := file.data + data;
      file.WriteAll(data);
      assert file.data == log;
      currentSize := currentSize + |data|;
      if currentSize > maxSize {
        RotateLogFile(file, maxSize);
        currentSize := |file.data|;
      }
      AppendAllSnoc(Rotate(initial, maxSize), maxSize, chunks, data);
      chunks := chunks + [data];
      ChunkingIndependence(initial, maxSize, chunks);
      RotateBounds(log, maxSize);
    }
  }

  /** The writer thread: one append per queued chunk, in queue order. */
  method RunLogWriter(log: SessionLog, rx: seq<Chunk>)
    requires log.Valid()
    modifies log, log.file
    ensures log.Valid()
    ensures log.initial == old(log.initial) && log.chunks == old(log.chunks) + rx
    ensures log.file.data == AppendAll(Rotate(log.initial, log.maxSize), log.maxSize, log.chunks)
  {
    for i := 0 to |rx|
      invariant log.Valid()
      invariant log.initial == old(log.initial) && log.chunks == old(log.chunks) + rx[..i]
    {
      log.Append(rx[i]);
      assert rx[..i + 1] == rx[..i] + [rx[i]];
    }
    assert rx[..|rx|] == rx;
  }
}
