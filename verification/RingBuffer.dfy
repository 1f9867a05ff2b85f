/** Fixed-capacity scrollback: the last `capacity` bytes ever appended. */
module RingBuffers {
  import opened Bytes

  /** A position at most one lap ahead, brought back into the buffer. */
  function Wrap(p: nat, cap: nat): nat
    requires p < 2 * cap
  {
    if p < cap then p else p - cap
  }

  lemma MaskWraps(p: nat, cap: nat)
    requires IsPowerOfTwo(cap) && p < 2 * cap
    ensures BitAnd(p, cap - 1) == Wrap(p, cap)
  {
    MaskIsRemainder(p, cap);
    RemainderUnique(p, cap, if p < cap then 0 else 1, Wrap(p, cap));
  }

  /** The `i`-th byte from physical index `head` on, wrapping. */
  function At(s: seq<byte>, head: nat, i: nat): byte
    requires head < |s| && i < |s|
  {
    s[Wrap(head + i, |s|)]
  }

  /** Buffer `s` holds `content` from physical index `head` on. */
  ghost predicate Holds(s: seq<byte>, head: nat, content: seq<byte>) {
    && head < |s|
    && |content| <= |s|
    && forall i {:trigger At(s, head, i)} :: 0 <= i < |content| ==> At(s, head, i) == content[i]
  }

  /** `t` is `s` with `data` laid over it from physical index `w` on. */
  ghost predicate Overlaid(s: seq<byte>, t: seq<byte>, w: nat, data: seq<byte>) {
    && w < |s| == |t|
    && |data| <= |s|
    && (forall j {:trigger At(t, w, j)} :: 0 <= j < |data| ==> At(t, w, j) == data[j])
    && (forall j {:trigger At(t, w, j)} :: |data| <= j < |s| ==> At(t, w, j) == At(s, w, j))
  }

  function Splice(s: seq<byte>, at: nat, data: seq<byte>): seq<byte>
    requires at + |data| <= |s|
  {
    s[..at] + data + s[at + |data|..]
  }

  /** One copy up to the end of the storage and one from its start lay `data`
      over the buffer cyclically. */
  lemma TwoCopiesOverlay(s: seq<byte>, w: nat, data: seq<byte>)
    requires w < |s| && |data| <= |s|
    ensures |s| - w >= |data| ==> Overlaid(s, Splice(s, w, data), w, data)
    ensures |s| - w < |data| ==>
      var first := |s| - w;
      Overlaid(s, Splice(Splice(s, w, data[..first]), 0, data[first..]), w, data)
  {
  }

  /** Position `j` past `w` is where the content's byte `i` lives. */
  lemma SamePlace(s: seq<byte>, head: nat, len: nat, i: nat)
    requires head < |s| && len <= |s|
    ensures i < len ==> At(s, Wrap(head + len, |s|), |s| - len + i) == At(s, head, i)
  {
  }

  lemma {:induction false} AtMoved(s: seq<byte>, w: nat, k: nat, i: nat)
    requires w < |s| && k <= |s| && i < |s|
    ensures k + i < |s| ==> At(s, Wrap(w + k, |s|), i) == At(s, w, k + i)
    ensures k + i >= |s| ==> At(s, Wrap(w + k, |s|), i) == At(s, w, k + i - |s|)
  {
  }

  lemma KeptWhenFull(s: seq<byte>, t: seq<byte>, head: nat, content: seq<byte>, data: seq<byte>, i: nat)
    requires Holds(s, head, content)
    requires Overlaid(s, t, Wrap(head + |content|, |s|), data)
    requires |content| + |data| > |s| > i
    ensures At(t, Wrap(Wrap(head + |content|, |s|) + |data|, |s|), i)
         == (content + data)[|content| + |data| - |s| + i]
  {
    AtMoved(t, Wrap(head + |content|, |s|), |data|, i);
    if |data| + i < |s| {
      SamePlace(s, head, |content|, |content| + |data| - |s| + i);
    }
  }

  lemma KeptWhenRoom(s: seq<byte>, t: seq<byte>, head: nat, content: seq<byte>, data: seq<byte>, i: nat)
    requires Holds(s, head, content)
    requires Overlaid(s, t, Wrap(head + |content|, |s|), data)
    requires i < |content| + |data| <= |s|
    ensures At(t, head, i) == (content + data)[i]
  {
    if i < |content| {
      SamePlace(s, head, |content|, i);
      SamePlace(t, head, |content|, i);
    } else {
      AtMoved(t, head, |content|, i - |content|);
    }
  }

  /** Writing just past the newest byte overwrites exactly the oldest ones. */
  lemma OverwriteKeepsNewest(s: seq<byte>, t: seq<byte>, head: nat, content: seq<byte>, data: seq<byte>, newHead: nat)
    requires Holds(s, head, content)
    requires Overlaid(s, t, Wrap(head + |content|, |s|), data)
    requires newHead == if |content| + |data| > |s| then Wrap(Wrap(head + |content|, |s|) + |data|, |s|) else head
    ensures Holds(t, newHead, LastN(content + data, |s|))
  {
    if |content| + |data| > |s| {
      forall i: nat | i < |s| ensures At(t, newHead, i) == LastN(content + data, |s|)[i] {
        KeptWhenFull(s, t, head, content, data, i);
      }
    } else {
      forall i: nat | i < |content| + |data| ensures At(t, head, i) == (content + data)[i] {
        KeptWhenRoom(s, t, head, content, data, i);
      }
    }
  }

  /** The storage, read from `head` on, is the newest part of `history`. */
  ghost predicate Scrollback(s: seq<byte>, head: nat, len: nat, history: seq<byte>) {
    len == |LastN(history, |s|)| && Holds(s, head, LastN(history, |s|))
  }

  /** An append longer than the buffer may be cut to its own tail first. */
  lemma NewestOfLongAppend(history: seq<byte>, data: seq<byte>, cap: nat)
    ensures LastN(LastN(history, cap) + LastN(data, cap), cap) == LastN(history + data, cap)
  {
    LastNAbsorbs(history, data, cap);
  }

  lemma OverlayAppends(s: seq<byte>, t: seq<byte>, head: nat, len: nat, history: seq<byte>, data: seq<byte>,
                       newHead: nat, newLen: nat)
    requires Scrollback(s, head, len, history)
    requires Overlaid(s, t, Wrap(head + len, |s|), LastN(data, |s|))
    requires
      var n := |LastN(data, |s|)|;
      if len + n > |s| then newHead == Wrap(Wrap(head + len, |s|) + n, |s|) && newLen == |s|
      else newHead == head && newLen == len + n
    ensures Scrollback(t, newHead, newLen, history + data)
  {
    OverwriteKeepsNewest(s, t, head, LastN(history, |s|), LastN(data, |s|), newHead);
    NewestOfLongAppend(history, data, |s|);
  }

  /** `p & (cap - 1)`, the masked index. */
  function Masked(p: nat, cap: nat): (r: nat)
    requires IsPowerOfTwo(cap) && p < 2 * cap
    ensures r == Wrap(p, cap)
  {
    MaskWraps(p, cap);
    BitAnd(p, cap - 1)
  }

  class RingBuffer {
    const buf: array<byte>
    /** Physical index of the oldest valid byte. */
    var head: nat
    /** Number of valid bytes. */
    var len: nat
    /** Every byte ever appended, oldest first. */
    ghost var history: seq<byte>

    ghost predicate Valid()
      reads this, buf
    {
      IsPowerOfTwo(buf.Length) && Scrollback(buf[..], head, len, history)
    }

    constructor (capacity: nat)
      requires IsPowerOfTwo(capacity)
      ensures Valid() && fresh(buf)
      ensures buf.Length == capacity && history == []
    {
      buf := new byte[capacity](_ => 0);
      head, len := 0, 0;
      history := [];
    }

    method Append(data: seq<byte>)
      requires Valid()
      modifies this, buf
      ensures Valid()
      ensures history == old(history) + data
    {
      if data == [] {
        assert history + data == history;
        return;
      }
      var cap := buf.Length;
      var kept := if |data| >= cap then data[|data| - cap..] else data;
      assert kept == LastN(data, cap);

      ghost var s := buf[..];
      var writePos := Masked(head + len, cap);
      CopyIn(writePos, kept);
      ghost var t := buf[..];
      Advance(writePos, |kept|);
      assert buf[..] == t;
      OverlayAppends(s, t, old(head), old(len), history, data, head, len);
      history := history + data;
    }

    /** Account for `n` bytes just written at `writePos`. */
    method Advance(writePos: nat, n: nat)
      requires IsPowerOfTwo(buf.Length) && writePos < buf.Length && n <= buf.Length
      modifies `head, `len
      ensures len == if old(len) + n > buf.Length then buf.Length else old(len) + n
      ensures head == if old(len) + n > buf.Length then Wrap(writePos + n, buf.Length) else old(head)
    {
      var cap := buf.Length;
      var newTotal := len + n;
      if newTotal > cap {
        head := Masked(writePos + n, cap);
        len := cap;
      } else {
        len := newTotal;
      }
    }

    /** At most two block copies: up to the end of the storage, then from its
        start. */
    method CopyIn(writePos: nat, kept: seq<byte>)
      requires writePos < buf.Length && |kept| <= buf.Length
      modifies buf
      ensures Overlaid(old(buf[..]), buf[..], writePos, kept)
    {
      var cap := buf.Length;
      TwoCopiesOverlay(buf[..], writePos, kept);
      var firstLen := if cap - writePos <= |kept| then cap - writePos else |kept|;
      WriteAt(writePos, kept[..firstLen]);
      if firstLen < |kept| {
        WriteAt(0, kept[firstLen..]);
      } else {
        assert kept[..firstLen] == kept;
      }
    }

    /** One block copy into the storage. */
    method WriteAt(at: nat, data: seq<byte>)
      requires at + |data| <= buf.Length
      modifies buf
      ensures buf[..] == Splice(old(buf[..]), at, data)
    {
      forall i | 0 <= i < |data| {
        buf[at + i] := data[i];
      }
    }

    /** Copy out the contents, oldest byte first. */
    method Snapshot() returns (out: seq<byte>)
      requires Valid()
      ensures out == LastN(history, buf.Length)
    {
      var cap := buf.Length;
      out := [];
      for i := 0 to len
        invariant out == LastN(history, cap)[..i]
      {
        assert At(buf[..], head, i) == LastN(history, cap)[i];
        out := out + [buf[Masked(head + i, cap)]];
      }
    }
  }
}
