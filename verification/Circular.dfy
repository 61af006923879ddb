/** The circular payload buffers shared by library and fast path, and what it means for one
    to hold a stretch of a byte stream. */
module Circular {
  import opened Arith

  /** The buffer cell of stream offset j: j modulo the buffer length. */
  function Cell(j: nat, len: nat): (c: nat)
    requires len > 0
    ensures c < len
    decreases j
  {
    if j < len then j else Cell(j - len, len)
  }

  /** The position update used everywhere: add, then subtract the length once if past the end. */
  function Bump(pos: nat, d: nat, len: nat): nat {
    if pos + d >= len then pos + d - len else pos + d
  }

  lemma {:induction false} CellBump(j: nat, d: nat, len: nat)
    requires 0 < len && d <= len
    ensures Bump(Cell(j, len), d, len) == Cell(j + d, len)
    decreases j
  {
    if j >= len {
      CellBump(j - len, d, len);
    }
  }

  lemma {:induction false} CellAbsorb(j: nat, d: nat, len: nat)
    requires 0 < len
    ensures Cell(Cell(j, len) + d, len) == Cell(j + d, len)
    decreases j
  {
    if j >= len {
      CellAbsorb(j - len, d, len);
    }
  }

  /** The buffer after storing src from pos on, in one copy up to the end and, if more is left, a second
      copy from the start. */
  function Write(buf: seq<Byte>, pos: nat, src: seq<Byte>): (r: seq<Byte>)
    requires pos < |buf|
    ensures |r| == |buf|
  {
    seq(|buf|, c requires 0 <= c < |buf| =>
      var k := c + |buf| - pos;
      if k < |src| then src[k] else if pos <= c < pos + |src| then src[c - pos] else buf[c])
  }

  /** What the second copy puts past the end of a buffer of `size` bytes. */
  function PastEnd(size: nat, pos: nat, src: seq<Byte>): seq<Byte>
    requires pos < size
  {
    if |src| > 2 * size - pos then src[2 * size - pos..] else []
  }

  function Zeros(n: nat): seq<Byte> {
    seq(n, _ => 0)
  }

  /** The n bytes from pos on, wrapping at the end. */
  function Read(buf: seq<Byte>, pos: nat, n: nat): (r: seq<Byte>)
    requires pos < |buf| && n <= |buf|
    ensures |r| == n
  {
    seq(n, k requires 0 <= k < n => buf[Bump(pos, k, |buf|)])
  }

  /** The n bytes from pos on, going round the buffer as often as it takes. */
  function Around(buf: seq<Byte>, pos: nat, n: nat): (r: seq<Byte>)
    requires |buf| > 0
    ensures |r| == n
  {
    seq(n, k requires 0 <= k < n => buf[Cell(pos + k, |buf|)])
  }

  lemma AroundRead(buf: seq<Byte>, pos: nat, n: nat)
    requires pos < |buf| && n <= |buf|
    ensures Around(buf, pos, n) == Read(buf, pos, n)
  {
    forall k | 0 <= k < n
      ensures Cell(pos + k, |buf|) == Bump(pos, k, |buf|)
    {
      CellBump(pos, k, |buf|);
    }
  }

  /** The cells of stream offsets [lo, hi) contain the bytes of the stream. */
  ghost predicate Holds(buf: seq<Byte>, s: seq<Byte>, lo: int, hi: int) {
    && 0 <= lo <= hi <= |s|
    && |buf| > 0
    && forall j {:trigger s[j]} :: lo <= j < hi ==> buf[Cell(j, |buf|)] == s[j]
  }

  /** buf' is buf with src stored in the |src| cells from pos on, and nothing else changed. */
  ghost predicate Written(buf: seq<Byte>, pos: nat, src: seq<Byte>, buf': seq<Byte>)
    requires pos < |buf|
  {
    && |src| <= |buf| == |buf'|
    && (forall k :: 0 <= k < |src| ==> buf'[Bump(pos, k, |buf|)] == src[k])
    && (forall k :: |src| <= k < |buf| ==> buf'[Bump(pos, k, |buf|)] == buf[Bump(pos, k, |buf|)])
  }

  lemma WriteWritten(buf: seq<Byte>, pos: nat, src: seq<Byte>)
    requires pos < |buf| && |src| <= |buf|
    ensures Written(buf, pos, src, Write(buf, pos, src))
  {
  }

  /** Writing stream bytes at their own cells makes the buffer hold them ... */
  lemma WriteHolds(buf: seq<Byte>, s: seq<Byte>, o: nat, src: seq<Byte>, buf': seq<Byte>)
    requires 0 < |buf| && o + |src| <= |s| && src == s[o..o + |src|]
    requires Written(buf, Cell(o, |buf|), src, buf')
    ensures Holds(buf', s, o, o + |src|)
  {
    forall j | o <= j < o + |src|
      ensures buf'[Cell(j, |buf|)] == s[j]
    {
      CellBump(o, j - o, |buf|);
      assert src[j - o] == s[j];
    }
  }

  /** ... and spoils nothing the buffer held within one buffer length of the written stretch. */
  lemma WriteKeeps(buf: seq<Byte>, s: seq<Byte>, o: nat, src: seq<Byte>, buf': seq<Byte>, lo: int, hi: int)
    requires Holds(buf, s, lo, hi)
    requires o + |src| <= |s| && src == s[o..o + |src|]
    requires Written(buf, Cell(o, |buf|), src, buf')
    requires o + |src| <= lo + |buf| && hi <= o + |buf|
    ensures Holds(buf', s, lo, hi)
  {
    WriteHolds(buf, s, o, src, buf');
    forall j | lo <= j < hi
      ensures buf'[Cell(j, |buf|)] == s[j]
    {
      if !(o <= j < o + |src|) {
        var k := if j >= o then j - o else j + |buf| - o;
        CellBump(o, k, |buf|);
        CellBump(j, |buf|, |buf|);
      }
    }
  }

  lemma ReadAt(buf: seq<Byte>, pos: nat, n: nat, k: nat)
    requires pos < |buf| && k < n <= |buf|
    ensures Read(buf, pos, n)[k] == buf[Bump(pos, k, |buf|)]
  {
  }

  lemma ReadHolds(buf: seq<Byte>, s: seq<Byte>, lo: nat, n: nat)
    requires n <= |buf| && Holds(buf, s, lo, lo + n)
    ensures Read(buf, Cell(lo, |buf|), n) == s[lo..lo + n]
  {
    forall k | 0 <= k < n
      ensures Read(buf, Cell(lo, |buf|), n)[k] == s[lo + k]
    {
      ReadAt(buf, Cell(lo, |buf|), n, k);
      CellBump(lo, k, |buf|);
    }
  }
}
