/** What an application does with transmit space it is granted: it writes both pieces and sends them. */
module Writing {
  import opened Arith
  import opened Circular
  import opened LibConn
  import opened Connection
  import opened CreditConservation
  import opened FastFlow
  import opened SocketView

  /** A copy into memory. */
  function Copied(buf: seq<Byte>, off: nat, src: seq<Byte>): (r: seq<Byte>)
    requires off + |src| <= |buf|
    ensures |r| == |buf|
  {
    buf[..off] + src + buf[off + |src|..]
  }

  /** The buffer after the application has written `bytes` into the granted pieces. */
  function Filled(buf: seq<Byte>, g: Grant, bytes: seq<Byte>): seq<Byte>
    requires g.Grant? && g.len1 <= g.len == |bytes| && g.off1 + g.len1 <= |buf| && g.len - g.len1 <= |buf|
  {
    Copied(Copied(buf, g.off1, bytes[..g.len1]), 0, bytes[g.len1..])
  }

  /** The granted pieces are the place the model's write step writes to. */
  lemma FilledIsStep(e: Env, x: World, len: nat, bytes: seq<Byte>)
    requires Base(e, x) && x.conn.status.Open? && !x.conn.txEos
    requires TxAlloc2(x.conn, len).1.Grant? && |bytes| == TxAlloc2(x.conn, len).1.len
    ensures var (c, g) := TxAlloc2(x.conn, len);
      && g.len1 <= g.len && g.off1 + g.len1 <= |x.flow.tx.buf| && g.len - g.len1 <= |x.flow.tx.buf|
      && c.txbHead < c.txbLen == |x.flow.tx.buf| && x.conn.txbAllocated + |bytes| <= c.txbLen
      && FillStep(x.(conn := c), x.conn.txbAllocated, bytes)
         == x.(conn := c, flow := x.flow.(tx := x.flow.tx.(buf := Filled(x.flow.tx.buf, g, bytes))))
  {
    hide U32, Cell, FlowInv, ToFastPath, ToLibrary, Ends, TxAlloc2, Write, Filled;
    FlowLens(e, x);
    GrantExact(x.conn, len);
    var (c, g) := TxAlloc2(x.conn, len);
    CellSmall(x.conn.txbHead, c.txbLen);
    CellBump(x.conn.txbHead, x.conn.txbAllocated, c.txbLen);
    FilledIsWrite(x.flow.tx.buf, g, bytes);
  }

  lemma FilledIsWrite(buf: seq<Byte>, g: Grant, bytes: seq<Byte>)
    requires g.Grant? && g.len1 <= g.len == |bytes| <= |buf| && g.off1 < |buf| && g.off1 + g.len1 <= |buf|
    requires g.len1 < g.len ==> g.off1 + g.len1 == |buf|
    ensures Filled(buf, g, bytes) == Write(buf, g.off1, bytes)
  {
  }

  /** What was written there and is then sent, with what was reserved before, is exactly what the stream gains: the bytes
      reserved before, untouched, and the bytes written. */
  lemma WrittenIsSent(e: Env, x: World, len: nat, bytes: seq<Byte>)
    requires Base(e, x) && x.conn.status.Open? && !x.conn.txEos
    requires TxAlloc2(x.conn, len).1.Grant? && |bytes| == TxAlloc2(x.conn, len).1.len
    ensures var (c, g) := TxAlloc2(x.conn, len);
      && g.len1 <= g.len && g.off1 + g.len1 <= |x.flow.tx.buf| && g.len - g.len1 <= |x.flow.tx.buf|
      && x.conn.txbHead < |x.flow.tx.buf| == c.txbLen && x.conn.txbAllocated <= |x.flow.tx.buf| && ConnValid(c)
      && var x1 := x.(conn := c, flow := x.flow.(tx := x.flow.tx.(buf := Filled(x.flow.tx.buf, g, bytes))));
         SendBytesStep(x1, c.txbAllocated).t == x.t + Committed(x, x.conn.txbAllocated) + bytes
  {
    hide U32, Cell, FlowInv, ToFastPath, ToLibrary, Ends, TxAlloc2, Write, Filled, Read;
    FilledIsStep(e, x, len, bytes);
    GrantExact(x.conn, len);
    ReadBehind(x.flow.tx.buf, x.conn.txbHead, x.conn.txbAllocated, bytes);
  }

  /** Reading across a write. */
  lemma ReadBehind(buf: seq<Byte>, pos: nat, d: nat, bytes: seq<Byte>)
    requires pos < |buf| && d + |bytes| <= |buf|
    ensures Bump(pos, d, |buf|) < |buf|
    ensures Read(Write(buf, Bump(pos, d, |buf|), bytes), pos, d + |bytes|) == Read(buf, pos, d) + bytes
  {
    hide Write;
    var at := Bump(pos, d, |buf|);
    var buf' := Write(buf, at, bytes);
    WriteWritten(buf, at, bytes);
    forall k | 0 <= k < d + |bytes|
      ensures Read(buf', pos, d + |bytes|)[k] == (Read(buf, pos, d) + bytes)[k]
    {
      ReadAt(buf', pos, d + |bytes|, k);
      if k < d {
        ReadAt(buf, pos, d, k);
        assert Bump(pos, k, |buf|) == Bump(at, |buf| - d + k, |buf|);
      } else {
        assert Bump(pos, k, |buf|) == Bump(at, k - d, |buf|);
      }
    }
  }

  // ---- Several pieces of application data --------------------------------------------------

  /** Which byte of the granted space cell c is, or -1. */
  function IndexIn(g: Grant, c: nat): int
    requires g.Grant? && g.len1 <= g.len
  {
    if g.off1 <= c < g.off1 + g.len1 then c - g.off1 else if c < g.len - g.len1 then g.len1 + c else -1
  }

  /** The buffer after storing src from byte `off` of the granted space on. */
  function Stored(buf: seq<Byte>, g: Grant, off: nat, src: seq<Byte>): (r: seq<Byte>)
    requires g.Grant? && g.len1 <= g.len
    ensures |r| == |buf|
  {
    seq(|buf|, c requires 0 <= c < |buf| =>
      var i := IndexIn(g, c);
      if off <= i < off + |src| then src[i - off] else buf[c])
  }

  lemma StoredThen(buf: seq<Byte>, g: Grant, a: seq<Byte>, b: seq<Byte>)
    requires g.Grant? && g.len1 <= g.len
    ensures Stored(Stored(buf, g, 0, a), g, |a|, b) == Stored(buf, g, 0, a + b)
  {
  }

  lemma StoredFilled(buf: seq<Byte>, g: Grant, bytes: seq<Byte>)
    requires g.Grant? && g.len1 <= g.len == |bytes| && g.off1 + g.len1 <= |buf| && g.len - g.len1 <= g.off1
    ensures Stored(buf, g, 0, bytes) == Filled(buf, g, bytes)
  {
  }

  /** split_write: src goes to byte `off` of the granted space, in one piece of it or across both. */
  method SplitWrite(buf: array<Byte>, g: Grant, off: nat, src: seq<Byte>)
    requires g.Grant? && g.len1 <= g.len && g.off1 + g.len1 <= buf.Length && g.len - g.len1 <= g.off1
    requires off + |src| <= g.len
    modifies buf
    ensures buf[..] == Stored(old(buf[..]), g, off, src)
  {
    var past;
    if off + |src| <= g.len1 {
      past := DmaWrite(buf, g.off1 + off, src);
    } else if off >= g.len1 {
      past := DmaWrite(buf, off - g.len1, src);
    } else {
      var l := g.len1 - off;
      past := DmaWrite(buf, g.off1 + off, src[..l]);
      past := DmaWrite(buf, 0, src[l..]);
    }
  }

  /** The copying loop of sendmsg: the elements of the vector, one after the other, until the granted space is full. */
  method CopyVector(buf: array<Byte>, g: Grant, iov: seq<seq<Byte>>)
    requires g.Grant? && g.len1 <= g.len <= |Flatten(iov)| && g.off1 + g.len1 <= buf.Length && g.len - g.len1 <= g.off1
    modifies buf
    ensures buf[..] == Filled(old(buf[..]), g, Flatten(iov)[..g.len])
  {
    hide Filled, Stored, Flatten;
    ghost var was, all := buf[..], Flatten(iov);
    var len, off, i := g.len, 0, 0;
    StoredNothing(was, g);
    assert iov[..0] == [] && all[..0] == [];
    FlattenNone();
    while i < |iov| && len > 0
      invariant i <= |iov| && 0 <= off <= off + len == g.len <= |all| && buf[..] == Stored(was, g, 0, all[..off])
      invariant len > 0 ==> off == |Flatten(iov[..i])|
    {
      var l := Min(len, |iov[i]|);
      FlattenPrefix(iov, i + 1);
      FlattenNext(iov, i);
      assert all[..off + l] == all[..off] + iov[i][..l];
      SplitWrite(buf, g, off, iov[i][..l]);
      StoredThen(was, g, all[..off], iov[i][..l]);
      len := len - l;
      off := off + l;
      i := i + 1;
    }
    assert iov[..|iov|] == iov;
    StoredFilled(was, g, all[..g.len]);
  }

  lemma StoredNothing(buf: seq<Byte>, g: Grant)
    requires g.Grant? && g.len1 <= g.len
    ensures Stored(buf, g, 0, []) == buf
  {
  }

  lemma FlattenNone()
    ensures Flatten([]) == []
  {
  }

  lemma FlattenNext(parts: seq<seq<Byte>>, i: nat)
    requires i < |parts|
    ensures Flatten(parts[..i + 1]) == Flatten(parts[..i]) + parts[i]
  {
    assert parts[..i + 1][..i] == parts[..i];
  }

  lemma {:induction false} FlattenPrefix(parts: seq<seq<Byte>>, i: nat)
    requires i <= |parts|
    ensures Flatten(parts[..i]) <= Flatten(parts)
    decreases |parts| - i
  {
    if i < |parts| {
      FlattenNext(parts, i);
      FlattenPrefix(parts, i + 1);
    } else {
      assert parts[..i] == parts;
    }
  }
}
