/** The socket layer's view of received data as at most two pieces of the receive buffer
    (lib/sockets/context.c, lib/sockets/transfer.c). */
module SocketView {
  import opened Arith
  import opened Circular

  /** The bytes at addresses buf .. buf + n - 1, where the buffer starts at address base. */
  function Bytes(ring: seq<Byte>, base: nat, buf: nat, n: nat): seq<Byte>
    requires n > 0 ==> base <= buf && buf + n <= base + |ring|
  {
    if n == 0 then [] else ring[buf - base..buf - base + n]
  }

  function Flatten(parts: seq<seq<Byte>>): seq<Byte> {
    if |parts| == 0 then [] else Flatten(parts[..|parts| - 1]) + parts[|parts| - 1]
  }

  function Sum(lens: seq<nat>): nat {
    if |lens| == 0 then 0 else Sum(lens[..|lens| - 1]) + lens[|lens| - 1]
  }

  lemma {:induction false} SumPrefix(lens: seq<nat>, i: nat)
    requires i <= |lens|
    ensures Sum(lens[..i]) <= Sum(lens)
    decreases |lens|
  {
    if i == |lens| {
      assert lens[..i] == lens;
    } else {
      SumPrefix(lens[..|lens| - 1], i);
      assert lens[..|lens| - 1][..i] == lens[..i];
    }
  }

  lemma ReadNone(ring: seq<Byte>, at: nat)
    requires at < |ring|
    ensures Read(ring, at, 0) == []
  {
  }

  /** Reading on from where the first read ended. */
  lemma ReadSplit(ring: seq<Byte>, p: nat, a: nat, b: nat)
    requires 0 < |ring| && a + b <= |ring|
    ensures Read(ring, Cell(p, |ring|), a + b) == Read(ring, Cell(p, |ring|), a) + Read(ring, Cell(p + a, |ring|), b)
  {
    hide Cell;
    var at, next := Cell(p, |ring|), Cell(p + a, |ring|);
    CellBump(p, a, |ring|);
    forall k | 0 <= k < b ensures Bump(at, a + k, |ring|) == Bump(next, k, |ring|) {
    }
  }

  /** The receive part of struct socket_connection. `pos` is the stream offset of the next byte to read
      and `shown` the number of bytes the socket knows to be readable. */
  class Socket {
    const base: nat
    const size: nat
    var rxBuf1: nat
    var rxLen1: nat
    var rxBuf2: nat
    var rxLen2: nat
    ghost var pos: nat
    ghost var shown: nat

    /** The pieces are the cells of the unread bytes: up to the end of the buffer, then from its start. */
    ghost predicate Valid()
      reads this
    {
      && 0 < size && 0 < base && shown <= size
      && rxLen1 == Min(shown, size - Cell(pos, size)) && rxLen2 == shown - rxLen1
      && (rxLen1 > 0 ==> rxBuf1 == base + Cell(pos, size))
      && (rxLen2 > 0 ==> rxBuf2 == base)
    }

    constructor (base: nat, size: nat, junk1: nat, junk2: nat)
      requires 0 < size && 0 < base
      ensures Valid() && pos == 0 && shown == 0 && this.base == base && this.size == size
    {
      this.base, this.size := base, size;
      rxBuf1, rxLen1, rxBuf2, rxLen2 := junk1, 0, junk2, 0;
      pos, shown := 0, 0;
    }

    /** An event that announces the bytes right after those shown. A wrap at the very end of the buffer
        also announces an empty piece there. */
    ghost predicate Follows(buf: nat, len: nat)
      reads this
      requires 0 < size
    {
      var c := Cell(pos + shown, size);
      shown + len <= size && if buf == base + size then len == 0 && c == 0 else buf == base + c && c + len <= size
    }

    /** ev_conn_received: more than two pieces never occur. */
    method Received(buf: nat, len: nat) returns (aborted: bool)
      requires Valid() && Follows(buf, len)
      modifies this
      ensures !aborted && Valid() && pos == old(pos) && shown == old(shown) + len
    {
      hide Cell;
      CellBump(pos, shown, size);
      aborted := false;
      if rxLen1 == 0 {
        rxLen1, rxBuf1, rxLen2 := len, buf, 0;
      } else if rxLen2 == 0 && buf == rxBuf1 + rxLen1 {
        rxLen1 := rxLen1 + len;
      } else if buf == rxBuf2 + rxLen2 {
        rxLen2 := rxLen2 + len;
      } else {
        if rxLen2 != 0 {
          aborted := true;
          return;
        }
        rxLen2, rxBuf2 := len, buf;
      }
      shown := shown + len;
    }

    /** Copy the first n bytes of piece 1, which are the next unread bytes. */
    method CopyPiece(ring: seq<Byte>, n: nat) returns (part: seq<Byte>)
      requires Valid() && |ring| == size && n <= rxLen1
      ensures part == Read(ring, Cell(pos, size), n)
    {
      hide Cell;
      part := Bytes(ring, base, rxBuf1, n);
      assert forall k :: 0 <= k < n ==> part[k] == Read(ring, Cell(pos, size), n)[k];
    }

    /** Drop piece 1, which has been read. */
    method Shift()
      requires Valid()
      modifies this
      ensures Valid() && pos == old(pos + rxLen1) && shown == old(shown - rxLen1) && rxLen2 == 0
    {
      hide Cell;
      CellBump(pos, rxLen1, size);
      pos, shown := pos + rxLen1, shown - rxLen1;
      rxBuf1, rxLen1, rxBuf2, rxLen2 := rxBuf2, rxLen2, 0, 0;
    }

    /** Drop the first n bytes of piece 1. */
    method Skip(n: nat)
      requires Valid() && n <= rxLen1 && (n < rxLen1 || rxLen2 == 0)
      modifies this
      ensures Valid() && pos == old(pos) + n && shown == old(shown) - n
    {
      hide Cell;
      CellBump(pos, n, size);
      pos, shown := pos + n, shown - n;
      rxBuf1, rxLen1 := rxBuf1 + n, rxLen1 - n;
    }

    /** The copy of recv_simple, and of recvmsg for one vector element: the next unread bytes, as many as
        are wanted and readable. */
    method Take(ring: seq<Byte>, len: nat) returns (part: seq<Byte>)
      requires Valid() && |ring| == size
      modifies this
      ensures Valid() && part == Read(ring, Cell(old(pos), size), Min(len, old(shown)))
      ensures pos == old(pos) + |part| && shown == old(shown) - |part|
    {
      hide Cell, Read;
      part := [];
      ghost var p := pos;
      if rxLen1 <= len {
        part := CopyPiece(ring, rxLen1);
        Shift();
      }
      ghost var first := |part|;
      ReadNone(ring, Cell(p, size));
      var n := Min(rxLen1, len - |part|);
      var more := CopyPiece(ring, n);
      Skip(n);
      ReadSplit(ring, p, first, n);
      part := part + more;
    }

    /** The copy loop of recvmsg: vector elements are filled in order with consecutive bytes. */
    method TakeAll(ring: seq<Byte>, lens: seq<nat>) returns (parts: seq<seq<Byte>>)
      requires Valid() && |ring| == size
      modifies this
      ensures Valid() && |parts| <= |lens| && Flatten(parts) == Read(ring, Cell(old(pos), size), Min(Sum(lens), old(shown)))
      ensures pos == old(pos) + |Flatten(parts)| && shown == old(shown) - |Flatten(parts)|
      ensures forall i :: 0 <= i < |parts| ==> |parts[i]| <= lens[i]
      ensures forall i :: 0 <= i < |parts| && |parts[i]| < lens[i] ==> shown == 0
    {
      hide Cell, Read;
      parts := [];
      ghost var p, all := pos, shown;
      var i := 0;
      ReadNone(ring, Cell(p, size));
      while i < |lens| && rxLen1 > 0
        invariant Valid() && i == |parts| <= |lens|
        invariant all == shown + |Flatten(parts)| && pos == p + |Flatten(parts)|
        invariant Flatten(parts) == Read(ring, Cell(p, size), |Flatten(parts)|)
        invariant |Flatten(parts)| == Min(Sum(lens[..i]), all)
        invariant forall k :: 0 <= k < i ==> |parts[k]| <= lens[k]
        invariant forall k :: 0 <= k < i && |parts[k]| < lens[k] ==> shown == 0
      {
        ghost var done := |Flatten(parts)|;
        var part := Take(ring, lens[i]);
        ReadSplit(ring, p, done, |part|);
        assert (parts + [part])[..i] == parts && lens[..i + 1][..i] == lens[..i];
        parts := parts + [part];
        i := i + 1;
      }
      if i == |lens| {
        assert lens[..i] == lens;
      } else {
        SumPrefix(lens, i);
      }
    }
  }
}
