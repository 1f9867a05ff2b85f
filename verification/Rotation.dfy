/** Where the session log is cut when it outgrows its cap, and why cutting at
    every append leaves the same file as cutting the whole history once. */
module Rotation {
  import opened Bytes

  const ESCAPE_LOOKBACK: nat := 64
  const ESC: byte := 0x1b
  const BRACKET: byte := 0x5b // '['

  /** Not the first byte of a UTF-8 character. */
  predicate IsContinuation(b: byte) {
    0x80 <= b < 0xc0
  }

  /** The masked comparison the trim loop makes. */
  lemma ContinuationMask(b: byte)
    ensures BitAnd(b, 0xc0) == 0x80 <==> IsContinuation(b)
  {
    TopTwoBits(b);
  }

  predicate IsFinal(b: byte) {
    0x40 <= b <= 0x7e
  }

  /** Whether the escape sequence starting at `h[e]` is closed before `p`. */
  predicate EscapeTerminated(h: seq<byte>, e: nat, p: nat)
    requires e < p <= |h|
  {
    e + 1 < p && (h[e + 1] == BRACKET ==> exists i :: e + 2 <= i < p && IsFinal(h[i]))
  }

  predicate NoEscape(h: seq<byte>, lo: nat, hi: nat)
    requires hi <= |h|
  {
    forall j :: lo <= j < hi ==> h[j] != ESC
  }

  /** The last ESC in `h[lo..hi]`. */
  function LastEscape(h: seq<byte>, lo: nat, hi: nat): (r: Option<nat>)
    requires lo <= hi <= |h|
    ensures r.Some? ==> lo <= r.value < hi
    decreases hi
  {
    if lo == hi then None
    else if h[hi - 1] == ESC then Some(hi - 1)
    else LastEscape(h, lo, hi - 1)
  }

  /** The first position from `p` on that is not a continuation byte. */
  function SkipContinuation(h: seq<byte>, p: nat): (r: nat)
    requires p <= |h|
    ensures p <= r <= |h|
    decreases |h| - p
  {
    if p < |h| && IsContinuation(h[p]) then SkipContinuation(h, p + 1) else p
  }

  /** It is the last ESC there is. */
  lemma {:induction false} LastEscapeIsLast(h: seq<byte>, lo: nat, hi: nat)
    requires lo <= hi <= |h|
    ensures match LastEscape(h, lo, hi)
      case Some(e) => h[e] == ESC && NoEscape(h, e + 1, hi)
      case None => NoEscape(h, lo, hi)
    decreases hi
  {
    if lo < hi && h[hi - 1] != ESC {
      LastEscapeIsLast(h, lo, hi - 1);
    }
  }

  predicate AllContinuation(h: seq<byte>, lo: nat, hi: nat)
    requires hi <= |h|
  {
    forall i :: lo <= i < hi ==> IsContinuation(h[i])
  }

  /** It skips continuation bytes, all of them, and nothing else. */
  lemma {:induction false} SkipContinuationSkips(h: seq<byte>, p: nat)
    requires p <= |h|
    ensures AllContinuation(h, p, SkipContinuation(h, p))
    ensures SkipContinuation(h, p) < |h| ==> !IsContinuation(h[SkipContinuation(h, p)])
    decreases |h| - p
  {
    if p < |h| && IsContinuation(h[p]) {
      SkipContinuationSkips(h, p + 1);
    }
  }

  /** The number of continuation bytes fixes where skipping stops. */
  lemma {:induction false} SkipContinuationStops(h: seq<byte>, p: nat, s: nat)
    requires p <= s <= |h| && AllContinuation(h, p, s)
    ensures s <= SkipContinuation(h, p)
    ensures s == SkipContinuation(h, p) <==> s == |h| || !IsContinuation(h[s])
    decreases s - p
  {
    if p < s {
      SkipContinuationStops(h, p + 1, s);
    }
  }

  /** The safe start nearest to a cut at `p`, looking for ESC from `lo` on. */
  function SafeStartFrom(h: seq<byte>, lo: nat, p: nat): (r: nat)
    requires lo <= p <= |h|
    ensures r <= |h| && lo <= r
  {
    var esc := LastEscape(h, lo, p);
    if esc.Some? && !EscapeTerminated(h, esc.value, p) then esc.value else SkipContinuation(h, p)
  }

  function Lookback(p: nat): (lo: nat)
    ensures lo <= p
  {
    if p <= ESCAPE_LOOKBACK then 0 else p - ESCAPE_LOOKBACK
  }

  /** An escape sequence that starts within the lookback is still open at `p`. */
  predicate OpenEscape(h: seq<byte>, p: nat)
    requires p <= |h|
  {
    var esc := LastEscape(h, Lookback(p), p);
    esc.Some? && !EscapeTerminated(h, esc.value, p)
  }

  function SafeStart(h: seq<byte>, p: nat): (r: nat)
    requires p <= |h|
    ensures r <= |h|
  {
    SafeStartFrom(h, Lookback(p), p)
  }

  /** How many leading bytes rotation drops. */
  function Cut(h: seq<byte>, cap: nat): (c: nat)
    ensures c <= |h|
  {
    if |h| <= cap then 0 else SafeStart(h, |h| - cap)
  }

  function Rotate(h: seq<byte>, cap: nat): seq<byte> {
    h[Cut(h, cap)..]
  }

  // ------------------------------------------------ reading only a window

  lemma {:induction false} LastEscapeShift(h: seq<byte>, k: nat, lo: nat, hi: nat)
    requires k <= lo <= hi <= |h|
    ensures LastEscape(h[k..], lo - k, hi - k)
         == (match LastEscape(h, lo, hi) case None => None case Some(e) => Some(e - k))
    decreases hi
  {
    if lo < hi && h[hi - 1] != ESC {
      LastEscapeShift(h, k, lo, hi - 1);
    }
  }

  lemma {:induction false} SkipContinuationShift(h: seq<byte>, k: nat, p: nat)
    requires k <= p <= |h|
    ensures SkipContinuation(h[k..], p - k) + k == SkipContinuation(h, p)
    decreases |h| - p
  {
    if p < |h| && IsContinuation(h[p]) {
      SkipContinuationShift(h, k, p + 1);
    }
  }

  lemma TerminatedShift(h: seq<byte>, k: nat, e: nat, p: nat)
    requires k <= e < p <= |h|
    ensures EscapeTerminated(h[k..], e - k, p - k) == EscapeTerminated(h, e, p)
  {
    if EscapeTerminated(h, e, p) && h[e + 1] == BRACKET {
      var i :| e + 2 <= i < p && IsFinal(h[i]);
      assert IsFinal(h[k..][i - k]);
    }
    if EscapeTerminated(h[k..], e - k, p - k) && h[e + 1] == BRACKET {
      var i :| e - k + 2 <= i < p - k && IsFinal(h[k..][i]);
      assert IsFinal(h[i + k]);
    }
  }

  lemma SafeStartShift(h: seq<byte>, k: nat, lo: nat, p: nat)
    requires k <= lo <= p <= |h|
    ensures SafeStartFrom(h[k..], lo - k, p - k) + k == SafeStartFrom(h, lo, p)
  {
    LastEscapeShift(h, k, lo, p);
    SkipContinuationShift(h, k, p);
    match LastEscape(h, lo, p) {
      case None =>
      case Some(e) => TerminatedShift(h, k, e, p);
    }
  }

  /** The file's last `cap + 64` bytes decide the cut: rotation never needs
      to read further back. */
  lemma WindowDecides(h: seq<byte>, cap: nat, readStart: nat)
    requires |h| > cap && readStart == Lookback(|h| - cap)
    ensures var window, cut := h[readStart..], |h| - cap - readStart;
      window[SafeStart(window, cut)..] == Rotate(h, cap)
  {
    var window, cut := h[readStart..], |h| - cap - readStart;
    SafeStartShift(h, readStart, readStart, |h| - cap);
    assert readStart + SafeStart(window, cut) == Cut(h, cap);
  }

  // ------------------------------------------------------- one rotation

  /** A rotated log exceeds its cap by at most the lookback, and is a suffix
      of what it was cut from; once trimmed it never opens with a
      continuation byte. */
  lemma RotateBounds(h: seq<byte>, cap: nat)
    ensures |Rotate(h, cap)| <= cap + 64
    ensures |Rotate(h, cap)| <= |h| && Rotate(h, cap) == h[|h| - |Rotate(h, cap)|..]
    ensures |h| <= cap ==> Rotate(h, cap) == h
    ensures |h| > cap && Rotate(h, cap) != [] ==> !IsContinuation(Rotate(h, cap)[0])
    ensures |h| > cap && |Rotate(h, cap)| > cap ==> Rotate(h, cap)[0] == ESC
  {
    if |h| > cap {
      var p := |h| - cap;
      LastEscapeIsLast(h, Lookback(p), p);
      SkipContinuationSkips(h, p);
    }
  }

  /** Byte by byte: `e` is the last ESC before `p` and at most 64 bytes back,
      and the sequence it starts is not over by `p`: only the ESC itself is
      there, or a CSI without a byte in 0x40..0x7e so far. */
  ghost predicate Straddles(h: seq<byte>, e: nat, p: nat) {
    && e < p <= |h| && p <= e + 64
    && h[e] == 0x1b && (forall j :: e < j < p ==> h[j] != 0x1b)
    && (e + 1 == p || (h[e + 1] == 0x5b && forall i :: e + 2 <= i < p ==> !(0x40 <= h[i] <= 0x7e)))
  }

  lemma StraddlesOpen(h: seq<byte>, e: nat, p: nat)
    requires Straddles(h, e, p)
    ensures OpenEscape(h, p) && LastEscape(h, Lookback(p), p) == Some(e)
  {
    LastEscapeIs(h, Lookback(p), p, e);
  }

  lemma OpenStraddles(h: seq<byte>, p: nat)
    requires p <= |h| && OpenEscape(h, p)
    ensures Straddles(h, LastEscape(h, Lookback(p), p).value, p)
  {
    var e := LastEscape(h, Lookback(p), p).value;
    LastEscapeIsLast(h, Lookback(p), p);
    assert forall i :: e + 2 <= i < p ==> (0x40 <= h[i] <= 0x7e <==> IsFinal(h[i]));
  }

  /** Byte by byte, the safe start for a cut at `p`: the ESC of a sequence that
      straddles `p`, if there is one, and otherwise the first byte from `p` on
      that is not a continuation byte. */
  ghost predicate SafeOnBytes(h: seq<byte>, p: nat, c: nat) {
    && p <= |h| && c <= |h|
    && (c < p <==> exists e :: Straddles(h, e, p))
    && (forall e :: Straddles(h, e, p) ==> c == e)
    && (c >= p ==> (forall i :: p <= i < c ==> 0x80 <= h[i] <= 0xbf) && (c < |h| ==> !(0x80 <= h[c] <= 0xbf)))
  }

  lemma SafeStartOnBytes(h: seq<byte>, p: nat)
    requires p <= |h|
    ensures SafeOnBytes(h, p, SafeStart(h, p))
  {
    var c := SafeStart(h, p);
    SkipContinuationSkips(h, p);
    forall e: nat | Straddles(h, e, p) ensures c == e {
      StraddlesOpen(h, e, p);
    }
    if OpenEscape(h, p) {
      OpenStraddles(h, p);
      assert Straddles(h, c, p);
    }
  }

  // ---------------------------------------------- rotating while appending

  /** `s` is a start the incremental log can have after history `h`: the whole
      history while it fits, the unterminated ESC when one straddles the cap,
      and otherwise any point up to which only continuation bytes follow the
      cap boundary. */
  ghost predicate PossibleStart(h: seq<byte>, cap: nat, s: nat) {
    if |h| <= cap then s == 0
    else
      var p := |h| - cap;
      if OpenEscape(h, p) then LastEscape(h, Lookback(p), p) == Some(s)
      else p <= s <= |h| && AllContinuation(h, p, s)
  }

  lemma CutIsPossible(h: seq<byte>, cap: nat)
    ensures PossibleStart(h, cap, Cut(h, cap))
  {
    if |h| > cap {
      SkipContinuationSkips(h, |h| - cap);
    }
  }

  /** Among the possible starts, the one rotation of the whole history picks
      is told apart by the byte found there. */
  lemma PossibleStartIsCut(h: seq<byte>, cap: nat, s: nat)
    requires PossibleStart(h, cap, s)
    ensures s <= |h|
    ensures s == Cut(h, cap) <==> |h| <= cap || s == |h| || !IsContinuation(h[s])
  {
    if |h| > cap {
      var p := |h| - cap;
      LastEscapeIsLast(h, Lookback(p), p);
      if p <= s && AllContinuation(h, p, s) {
        SkipContinuationStops(h, p, s);
      }
    }
  }

  /** Looking further back for ESC changes nothing when every ESC out there
      is closed by `p`. */
  lemma WiderLookback(h: seq<byte>, wide: nat, narrow: nat, p: nat)
    requires wide <= narrow <= p <= |h|
    requires forall e :: wide <= e < narrow && h[e] == ESC && NoEscape(h, e + 1, p) ==> EscapeTerminated(h, e, p)
    ensures SafeStartFrom(h, wide, p) == SafeStartFrom(h, narrow, p)
  {
    LastEscapeIsLast(h, wide, p);
    LastEscapeWider(h, wide, narrow, p);
  }

  lemma {:induction false} LastEscapeWider(h: seq<byte>, wide: nat, narrow: nat, p: nat)
    requires wide <= narrow <= p <= |h|
    ensures LastEscape(h, narrow, p).Some? ==> LastEscape(h, wide, p) == LastEscape(h, narrow, p)
    ensures LastEscape(h, narrow, p).None? && LastEscape(h, wide, p).Some? ==> LastEscape(h, wide, p).value < narrow
    decreases p
  {
    if narrow < p && h[p - 1] != ESC {
      LastEscapeWider(h, wide, narrow, p - 1);
    }
  }

  /** More text never reopens an escape sequence. */
  lemma TerminatedStays(h: seq<byte>, d: seq<byte>, e: nat, p: nat, q: nat)
    requires e < p <= |h| && p <= q <= |h + d|
    requires EscapeTerminated(h, e, p)
    ensures EscapeTerminated(h + d, e, q)
  {
    if h[e + 1] == BRACKET {
      var i :| e + 2 <= i < p && IsFinal(h[i]);
      assert IsFinal((h + d)[i]);
    }
  }

  /** The log still fits its cap, so nothing is trimmed; the cap boundary of
      the whole history lies before its first byte. */
  lemma SafeStaysPut(h: seq<byte>, d: seq<byte>, cap: nat, s: nat)
    requires |h| > cap && PossibleStart(h, cap, s) && s <= |h|
    requires |h + d| - cap <= s
    ensures PossibleStart(h + d, cap, s)
  {
    var h', p' := h + d, |h + d| - cap;
    if p' > 0 && |h'| > cap {
      LastEscapeIsLast(h', Lookback(p'), p');
      NoOpenEscapeBefore(h, d, cap, s, p');
    }
  }

  /** The cap boundary has moved past the log's first byte: trimming the log
      and trimming the whole history now agree. */
  lemma RotateTail(h: seq<byte>, d: seq<byte>, cap: nat, s: nat)
    requires |h| > cap && PossibleStart(h, cap, s) && s <= |h|
    requires s < |h + d| - cap
    ensures s + Cut((h + d)[s..], cap) == Cut(h + d, cap)
  {
    NoOpenEscapeBefore(h, d, cap, s, |h + d| - cap);
    CutOfTail(h + d, cap, s);
  }

  lemma TrimShift(h: seq<byte>, seen: nat, cap: nat, s: nat)
    requires s <= seen <= |h| - cap && s < |h| - cap
    requires Lookback(|h| - cap - s) == seen - s
    ensures s + Cut(h[s..], cap) == SafeStartFrom(h, seen, |h| - cap)
  {
    SafeStartShift(h, s, seen, |h| - cap);
  }

  lemma CutOfTail(h: seq<byte>, cap: nat, s: nat)
    requires s < |h| - cap
    requires var p := |h| - cap;
      forall e :: Lookback(p) <= e < s && h[e] == ESC && NoEscape(h, e + 1, p) ==> EscapeTerminated(h, e, p)
    ensures s + Cut(h[s..], cap) == Cut(h, cap)
  {
    var p := |h| - cap;
    var seen := if Lookback(p) < s then s else Lookback(p);
    assert Lookback(p - s) == seen - s;
    assert SafeStartFrom(h, seen, p) == SafeStart(h, p) by {
      WiderLookback(h, Lookback(p), seen, p);
    }
    TrimShift(h, seen, cap, s);
  }

  /** Every ESC before the log's first byte that a later rotation of the whole
      history would still look at is closed, or followed by a later ESC. */
  lemma NoOpenEscapeBefore(h: seq<byte>, d: seq<byte>, cap: nat, s: nat, q: nat)
    requires |h| > cap && PossibleStart(h, cap, s) && s <= |h|
    requires |h| - cap <= q <= |h + d|
    ensures forall e :: Lookback(q) <= e < s && e < q && (h + d)[e] == ESC && NoEscape(h + d, e + 1, q) ==>
                  EscapeTerminated(h + d, e, q)
  {
    var h', p := h + d, |h| - cap;
    forall e | Lookback(q) <= e < s && e < q && h'[e] == ESC && NoEscape(h', e + 1, q)
      ensures EscapeTerminated(h', e, q)
    {
      assert h[e] == ESC;
      if e < p {
        forall j | e < j < p ensures h[j] != ESC {
          assert h'[j] == h[j];
        }
        LastEscapeIs(h, Lookback(p), p, e);
        if s < p {
          assert false;
        }
        TerminatedStays(h, d, e, p, q);
      } else {
        assert false;
      }
    }
  }

  lemma LastEscapeIs(h: seq<byte>, lo: nat, p: nat, e: nat)
    requires lo <= e < p <= |h| && h[e] == ESC && NoEscape(h, e + 1, p)
    ensures LastEscape(h, lo, p) == Some(e)
  {
    LastEscapeIsLast(h, lo, p);
  }

  /** `log` is what an incrementally rotated file can hold after history `h`,
      its first byte coming from position `s`. */
  ghost predicate LogOf(h: seq<byte>, cap: nat, s: nat, log: seq<byte>) {
    s <= |h| && log == h[s..] && PossibleStart(h, cap, s)
  }

  lemma PossibleStartStep(h: seq<byte>, d: seq<byte>, cap: nat, s: nat)
    requires PossibleStart(h, cap, s) && s <= |h|
    ensures PossibleStart(h + d, cap, s + Cut((h + d)[s..], cap))
  {
    if |h| <= cap {
      assert (h + d)[s..] == h + d;
      CutIsPossible(h + d, cap);
    } else if |h + d| - cap > s {
      RotateTail(h, d, cap, s);
      CutIsPossible(h + d, cap);
    } else {
      SafeStaysPut(h, d, cap, s);
    }
  }

  /** Appending to such a log and rotating it gives such a log again. */
  lemma LogStep(h: seq<byte>, cap: nat, s: nat, log: seq<byte>, d: seq<byte>)
    requires LogOf(h, cap, s, log)
    ensures LogOf(h + d, cap, s + Cut(log + d, cap), Rotate(log + d, cap))
  {
    assert log + d == (h + d)[s..];
    PossibleStartStep(h, d, cap, s);
  }

  lemma RotatedIsLog(h: seq<byte>, cap: nat)
    ensures LogOf(h, cap, Cut(h, cap), Rotate(h, cap))
  {
    CutIsPossible(h, cap);
  }

  // ------------------------------------------------------ an emptied log

  lemma {:induction false} LastEscapePrefix(h: seq<byte>, d: seq<byte>, lo: nat, hi: nat)
    requires lo <= hi <= |h|
    ensures LastEscape(h + d, lo, hi) == LastEscape(h, lo, hi)
    decreases hi
  {
    if lo < hi && h[hi - 1] != ESC {
      LastEscapePrefix(h, d, lo, hi - 1);
    }
  }

  /** Whether an escape sequence is open does not depend on what follows. */
  lemma OpenEscapePrefix(h: seq<byte>, d: seq<byte>, p: nat)
    requires p <= |h|
    ensures OpenEscape(h + d, p) == OpenEscape(h, p)
  {
    LastEscapePrefix(h, d, Lookback(p), p);
    match LastEscape(h, Lookback(p), p) {
      case None =>
      case Some(e) =>
        if EscapeTerminated(h, e, p) {
          TerminatedStays(h, d, e, p, p);
        } else {
          assert forall i :: e < i < p ==> (h + d)[i] == h[i];
        }
    }
  }

  /** The last `cap` bytes are all continuation bytes, and no escape sequence
      is open before them. */
  predicate EndsInRun(h: seq<byte>, cap: nat) {
    cap < |h| && AllContinuation(h, |h| - cap, |h|) && !OpenEscape(h, |h| - cap)
  }

  /** Those are the histories rotation leaves nothing of. */
  lemma RotateEmpties(h: seq<byte>, cap: nat)
    ensures Rotate(h, cap) == [] <==> h == [] || EndsInRun(h, cap)
  {
    if |h| > cap {
      var p := |h| - cap;
      SkipContinuationSkips(h, p);
      if EndsInRun(h, cap) {
        SkipContinuationStops(h, p, |h|);
      }
    }
  }

  /** After `s` bytes rotation leaves nothing, the next byte is one more
      continuation byte, and the cap has not been outgrown again since. */
  predicate StrayAt(h: seq<byte>, cap: nat, s: nat) {
    && cap < s < |h| <= s + cap
    && AllContinuation(h, s - cap, s + 1)
    && !OpenEscape(h, s - cap)
  }

  /** A log that starts over there is not what rotating the history leaves. */
  lemma StrayIsLog(h: seq<byte>, cap: nat, s: nat)
    requires StrayAt(h, cap, s)
    ensures PossibleStart(h, cap, s) && h[s..] != Rotate(h, cap)
  {
    assert h == h[..s] + h[s..];
    OpenEscapePrefix(h[..s], h[s..], s - cap);
    SafeStaysPut(h[..s], h[s..], cap, s);
    PossibleStartIsCut(h, cap, s);
  }

  /** It stays one until the cap is outgrown again. */
  lemma StrayStays(h: seq<byte>, d: seq<byte>, cap: nat, s: nat)
    requires StrayAt(h, cap, s) && |h + d| <= s + cap
    ensures StrayAt(h + d, cap, s)
  {
    OpenEscapePrefix(h, d, s - cap);
    assert forall i :: 0 <= i < |h| ==> (h + d)[i] == h[i];
  }

  lemma StrayBegins(h: seq<byte>, d: seq<byte>, cap: nat)
    requires EndsInRun(h, cap) && 0 < |d| <= cap && IsContinuation(d[0])
    ensures StrayAt(h + d, cap, |h|) && (h + d)[|h|..] == d
  {
    OpenEscapePrefix(h, d, |h| - cap);
    assert forall i :: 0 <= i < |h| ==> (h + d)[i] == h[i];
  }

  /** Such a log is the rotated history exactly when its first byte says so. */
  lemma LogIsRotated(h: seq<byte>, cap: nat, s: nat, log: seq<byte>)
    requires LogOf(h, cap, s, log)
    ensures log == Rotate(h, cap) <==> |h| <= cap || log == [] || !IsContinuation(log[0])
  {
    PossibleStartIsCut(h, cap, s);
    assert |Rotate(h, cap)| == |h| - Cut(h, cap);
  }
}
