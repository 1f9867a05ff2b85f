/** Byte strings, streams cut into chunks, and the bit mask both the ring
    buffer and the log rotation use. */
module Bytes {

  datatype Option<+T> = None | Some(value: T)

  type byte = x: int | 0 <= x < 0x100
  type u16 = x: int | 0 <= x < 0x1_0000

  /** One read, one frame payload, one broadcast item. */
  type Chunk = seq<byte>

  /** The stream a sequence of chunks spells out. */
  function Flatten(chunks: seq<Chunk>): (stream: Chunk) {
    if chunks == [] then [] else chunks[0] + Flatten(chunks[1..])
  }

  lemma {:induction false} FlattenConcat(a: seq<Chunk>, b: seq<Chunk>)
    ensures Flatten(a + b) == Flatten(a) + Flatten(b)
  {
    if a == [] {
      assert a + b == b;
    } else {
      assert (a + b)[1..] == a[1..] + b;
      FlattenConcat(a[1..], b);
      Reassociate(a[0], Flatten(a[1..]), Flatten(b));
    }
  }

  lemma FlattenOne(c: Chunk)
    ensures Flatten([c]) == c
  {
    assert [c][1..] == [];
  }

  /** Adding one more chunk adds its bytes at the end. */
  lemma FlattenSnoc(chunks: seq<Chunk>, c: Chunk)
    ensures Flatten(chunks + [c]) == Flatten(chunks) + c
  {
    FlattenConcat(chunks, [c]);
    FlattenOne(c);
  }

  /** The stream up to chunk `k`, then everything from `k` on. */
  lemma FlattenCut(chunks: seq<Chunk>, k: nat)
    requires k <= |chunks|
    ensures Flatten(chunks) == Flatten(chunks[..k]) + Flatten(chunks[k..])
  {
    FlattenConcat(chunks[..k], chunks[k..]);
    assert chunks == chunks[..k] + chunks[k..];
  }

  lemma Reassociate<T>(a: seq<T>, b: seq<T>, c: seq<T>)
    ensures a + b + c == a + (b + c)
  {
  }

  lemma CancelFront<T>(a: seq<T>, b: seq<T>, c: seq<T>)
    ensures a + b == a + c <==> b == c
  {
    assert (a + b)[|a|..] == b && (a + c)[|a|..] == c;
  }

  /** The most recent `n` elements, or all of them when there are fewer. */
  function LastN<T>(s: seq<T>, n: nat): (r: seq<T>)
    ensures |r| == if |s| <= n then |s| else n
  {
    if |s| <= n then s else s[|s| - n..]
  }

  /** Forgetting early costs nothing: trimming before more data arrives and
      trimming only at the end keep the same elements. */
  lemma LastNAbsorbs<T>(s: seq<T>, t: seq<T>, n: nat)
    ensures LastN(LastN(s, n) + t, n) == LastN(s + t, n)
  {
    var kept := LastN(s, n);
    var dropped := |s| - |kept|;
    assert s + t == s[..dropped] + (kept + t);
  }

  /** What a taker of at most `n` more elements takes. */
  function Upto<T>(s: seq<T>, n: nat): seq<T> {
    if |s| <= n then s else s[..n]
  }

  /** As much as there is room for, from the front. */
  lemma UptoTakes<T>(s: seq<T>, n: nat)
    ensures Upto(s, n) <= s && |Upto(s, n)| == if |s| <= n then |s| else n
  {
  }

  lemma UptoConcat<T>(a: seq<T>, b: seq<T>, n: nat)
    requires |a| <= n
    ensures a + Upto(b, n - |a|) == Upto(a + b, n)
  {
  }

  /** Once it was too much, more makes no difference. */
  lemma UptoFull<T>(a: seq<T>, b: seq<T>, n: nat)
    requires |a| > n
    ensures Upto(a + b, n) == Upto(a, n)
  {
  }

  /** Counting from the newest element. */
  function FromEnd<T>(s: seq<T>, k: nat): T
    requires k < |s|
  {
    s[|s| - 1 - k]
  }

  lemma FromEndSnoc<T>(s: seq<T>, x: T, n: nat, k: nat)
    requires k < |LastN(s + [x], n)|
    ensures FromEnd(LastN(s + [x], n), k) == if k == 0 then x else FromEnd(s, k - 1)
  {
    assert FromEnd(LastN(s + [x], n), k) == (s + [x])[|s| - k];
  }

  // ------------------------------------------------------------ bit masks

  /** `x & y` on unsigned integers of any width. */
  function BitAnd(x: nat, y: nat): nat {
    if x == 0 || y == 0 then 0
    else 2 * BitAnd(x / 2, y / 2) + (if x % 2 == 1 && y % 2 == 1 then 1 else 0)
  }

  predicate IsPowerOfTwo(n: nat) {
    n == 1 || (n > 0 && n % 2 == 0 && IsPowerOfTwo(n / 2))
  }

  lemma SmallMultiple(d: int, m: int)
    requires -m < d * m < m
    ensures d == 0
  {
  }

  lemma RemainderUnique(x: int, m: int, q: int, r: int)
    requires 0 <= r < m && x == q * m + r
    ensures x % m == r
  {
    var d := x / m - q;
    assert d * m == r - x % m;
    SmallMultiple(d, m);
  }

  lemma HalvedRemainder(x: nat, half: nat)
    requires half > 0
    ensures x % (2 * half) == 2 * (x / 2 % half) + x % 2
  {
    var q, r := (x / 2) / half, (x / 2) % half;
    assert x / 2 == q * half + r;
    assert q * (2 * half) == 2 * (q * half);
    RemainderUnique(x, 2 * half, q, 2 * r + x % 2);
  }

  lemma BitAndOdd(x: nat, half: nat)
    requires half > 0
    ensures BitAnd(x, 2 * half - 1) == 2 * BitAnd(x / 2, half - 1) + x % 2
  {
    assert (2 * half - 1) / 2 == half - 1 && (2 * half - 1) % 2 == 1;
  }

  /** Masking with `cap - 1` is the remainder modulo `cap`. */
  lemma {:induction false} MaskIsRemainder(x: nat, cap: nat)
    requires IsPowerOfTwo(cap)
    ensures BitAnd(x, cap - 1) == x % cap
    decreases cap
  {
    if cap > 1 {
      var half := cap / 2;
      MaskIsRemainder(x / 2, half);
      BitAndOdd(x, half);
      HalvedRemainder(x, half);
    }
  }

  /** Bits below those set in the mask do not matter. */
  lemma {:induction false} BitAndQuad(x: nat, y: nat)
    ensures BitAnd(x, 4 * y) == 4 * BitAnd(x / 4, y)
  {
    assert x / 4 == x / 2 / 2;
    assert BitAnd(x, 4 * y) == 2 * BitAnd(x / 2, 2 * y);
    assert BitAnd(x / 2, 2 * y) == 2 * BitAnd(x / 2 / 2, y);
  }

  lemma LowTwoBits(x: nat)
    requires x < 4
    ensures BitAnd(x, 3) == x
  {
    assert BitAnd(x / 2, 1) == x / 2;
  }

  /** The top two bits of a byte, in place. */
  lemma TopTwoBits(b: byte)
    ensures BitAnd(b, 0xc0) == 0x80 <==> 0x80 <= b < 0xc0
  {
    BitAndQuad(b, 0x30);
    BitAndQuad(b / 4, 0x0c);
    BitAndQuad(b / 4 / 4, 0x03);
    LowTwoBits(b / 4 / 4 / 4);
  }
}
