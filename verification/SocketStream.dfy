/** A socket reading its connection's receive buffer: library updates, event dispatch and reads in any
    order (lib/tas/init.c, lib/sockets/context.c, lib/sockets/transfer.c). */
module SocketStream {
  import opened Arith
  import opened Circular
  import opened LibConn
  import opened SocketView

  /** An announcement of the bytes at stream offset `from`. */
  ghost predicate Announces(ev: Event, from: nat, size: nat)
    requires 0 < size && ev.RxData?
  {
    if ev.off == size then ev.len == 0 && Cell(from, size) == 0
    else ev.off == Cell(from, size) && ev.off + ev.len <= size
  }

  /** The receive events announce, one after the other, the stream from `from` up to `end`. */
  ghost predicate Chained(events: seq<Event>, from: nat, end: nat, size: nat)
    requires 0 < size
    decreases |events|
  {
    if |events| == 0 then from == end
    else if events[0].RxData? then
      && Announces(events[0], from, size) && from + events[0].len <= end
      && Chained(events[1..], from + events[0].len, end, size)
    else Chained(events[1..], from, end, size)
  }

  lemma {:induction false} ChainedAppend(a: seq<Event>, b: seq<Event>, from: nat, mid: nat, end: nat, size: nat)
    requires 0 < size && Chained(a, from, mid, size) && Chained(b, mid, end, size)
    ensures Chained(a + b, from, end, size)
    decreases |a|
  {
    ChainedLe(b, mid, end, size);
    if |a| == 0 {
      assert a + b == b;
    } else {
      assert (a + b)[1..] == a[1..] + b;
      var f := if a[0].RxData? then from + a[0].len else from;
      ChainedAppend(a[1..], b, f, mid, end, size);
    }
  }

  lemma {:induction false} ChainedLe(events: seq<Event>, from: nat, end: nat, size: nat)
    requires 0 < size && Chained(events, from, end, size)
    ensures from <= end
    decreases |events|
  {
    if |events| > 0 && !events[0].RxData? {
      ChainedLe(events[1..], from, end, size);
    }
  }

  lemma {:induction false} NoData(events: seq<Event>, at: nat, size: nat)
    requires 0 < size && forall e <- events :: !e.RxData?
    ensures Chained(events, at, at, size)
  {
    if |events| > 0 {
      NoData(events[1..], at, size);
    }
  }

  /** The events of one connection update announce exactly the bytes it delivers. */
  lemma UpdateAnnounces(c: Conn, bump: nat, at: nat)
    requires 0 < c.rxbLen && c.rxbHead <= c.rxbLen && bump <= c.rxbLen && Cell(c.rxbHead, c.rxbLen) == Cell(at, c.rxbLen)
    ensures Chained(RxEvents(c, bump), at, at + bump, c.rxbLen)
    ensures var c' := RxUpdate(c, bump);
      c'.rxbHead <= c.rxbLen && Cell(c'.rxbHead, c.rxbLen) == Cell(at + bump, c.rxbLen)
  {
    hide Cell, Chained;
    var n := c.rxbLen;
    HeadAt(c.rxbHead, at, bump, n);
    if bump == 0 {
      NoData([], at, n);
    } else if c.rxbHead + bump > n {
      HeadAt(c.rxbHead, at, n - c.rxbHead, n);
      TwoChained(c.rxbHead, n - c.rxbHead, bump, at, n);
    } else {
      OneChained(c.rxbHead, bump, at, n);
    }
  }

  /** Where a position is after d more bytes. */
  lemma HeadAt(head: nat, at: nat, d: nat, size: nat)
    requires 0 < size && head <= size && d <= size && Cell(head, size) == Cell(at, size)
    ensures Bump(head, d, size) <= size && Cell(Bump(head, d, size), size) == Cell(at + d, size)
    ensures head < size ==> Cell(at, size) == head
    ensures head == size ==> Cell(at, size) == 0
    ensures head + d == size ==> Cell(at + d, size) == 0
  {
    CellAbsorb(head, d, size);
    CellAbsorb(at, d, size);
  }

  lemma OneChained(off: nat, len: nat, at: nat, size: nat)
    requires 0 < size && Announces(RxData(off, len), at, size)
    ensures Chained([RxData(off, len)], at, at + len, size)
  {
    hide Cell, Announces;
    assert [RxData(off, len)][1..] == [];
  }

  lemma TwoChained(off: nat, first: nat, bump: nat, at: nat, size: nat)
    requires 0 < size && first <= bump && Announces(RxData(off, first), at, size)
    requires Announces(RxData(0, bump - first), at + first, size)
    ensures Chained([RxData(off, first), RxData(0, bump - first)], at, at + bump, size)
  {
    hide Cell, Announces, Chained;
    OneChained(off, first, at, size);
    OneChained(0, bump - first, at + first, size);
    ChainedAppend([RxData(off, first)], [RxData(0, bump - first)], at, at + first, at + bump, size);
    assert [RxData(off, first)] + [RxData(0, bump - first)] == [RxData(off, first), RxData(0, bump - first)];
  }

  lemma TxEvents(c: Conn, txBump: nat)
    requires ConnValid(c) && c.status.Open? && txBump <= c.txbSent
    ensures var (c', evs) := TxUpdate(c, txBump);
      && ConnValid(c') && c'.status.Open? && c'.rxbLen == c.rxbLen && c'.rxbUsed == c.rxbUsed
      && c'.rxbHead == c.rxbHead && forall e <- evs :: !e.RxData?
  {
  }

  /** The other events of an update are not about received data. */
  lemma UpdateEvents(c: Conn, m: Update, outn: nat)
    requires ConnValid(c) && UpdateValid(c, m) && c.status.Open?
    ensures var r := ConnUpdate(c, m, outn);
      r.Updated? ==>
        && ConnValid(r.conn) && r.conn.status.Open? && |RxEvents(c, m.rxBump)| <= |r.events|
        && r.conn.rxbLen == c.rxbLen && r.conn.rxbUsed == c.rxbUsed + m.rxBump
        && r.conn.rxbHead == RxUpdate(c, m.rxBump).rxbHead
        && RxEvents(c, m.rxBump) == r.events[..|RxEvents(c, m.rxBump)|]
        && forall e <- r.events[|RxEvents(c, m.rxBump)|..] :: !e.RxData?
  {
    hide EventsNeeded, RxEvents, TxUpdate;
    TxEvents(RxUpdate(c, m.rxBump), m.txBump);
    var (_, evs) := TxUpdate(RxUpdate(c, m.rxBump), m.txBump);
    var rest := evs + if m.fin then [RxClosed] else [];
    assert forall e <- rest :: !e.RxData?;
    var r := ConnUpdate(c, m, outn);
    if r.Updated? {
      assert r.events == RxEvents(c, m.rxBump) + rest;
    }
  }

  class Reader {
    const socket: Socket
    var conn: Conn
    var events: seq<Event>

    ghost predicate Valid()
      reads this, socket
    {
      && socket.Valid() && ConnValid(conn) && conn.status.Open? && conn.rxbLen == socket.size
      && conn.rxbHead <= conn.rxbLen && conn.rxbUsed <= conn.rxbLen
      && Cell(conn.rxbHead, socket.size) == Cell(socket.pos + conn.rxbUsed, socket.size)
      && Chained(events, socket.pos + socket.shown, socket.pos + conn.rxbUsed, socket.size)
    }

    /** A connection that has just opened; what arrived before is announced with the open event. */
    constructor (socket: Socket, before: Conn, rxLen: nat, txLen: nat, outn: nat)
      requires socket.Valid() && socket.pos == 0 && socket.shown == 0 && socket.size == rxLen && 0 < txLen
      requires before.status.OpenRequested? && before.rxbHead == before.rxbUsed <= rxLen && before.txbHead < txLen
      requires before.txbSent == before.txbAllocated == 0 && !before.txEos && !before.txEosAlloc
      requires ConnOpened(before, true, rxLen, txLen, outn).Updated?
      ensures Valid() && this.socket == socket && conn.rxbUsed == before.rxbUsed
    {
      var r := ConnOpened(before, true, rxLen, txLen, outn);
      this.socket, conn, events := socket, r.conn, r.events;
      new;
      ghost var rest := if before.rxClosed then [RxClosed] else [];
      NoData(rest, before.rxbUsed, rxLen);
      if before.rxbUsed > 0 {
        assert events == [ConnOpen(true), RxData(0, before.rxbUsed)] + rest;
        assert events[1..][1..] == rest;
      } else {
        assert events == [ConnOpen(true)] + rest && events[1..] == rest;
      }
    }

    /** The library takes a connection update out of its ring; nothing happens if the events do not fit. */
    method Update(m: Update, outn: nat) returns (taken: bool)
      requires Valid() && UpdateValid(conn, m)
      modifies this
      ensures Valid() && taken == ConnUpdate(old(conn), m, outn).Updated?
      ensures conn.rxbUsed == old(conn.rxbUsed) + (if taken then m.rxBump else 0)
    {
      hide Cell, ConnUpdate, RxEvents, Chained;
      var r := ConnUpdate(conn, m, outn);
      taken := r.Updated?;
      if taken {
        ghost var at, size, evs := socket.pos + conn.rxbUsed, socket.size, RxEvents(conn, m.rxBump);
        UpdateEvents(conn, m, outn);
        UpdateAnnounces(conn, m.rxBump, at);
        NoData(r.events[|evs|..], at + m.rxBump, size);
        ChainedAppend(evs, r.events[|evs|..], at, at + m.rxBump, at + m.rxBump, size);
        assert r.events == evs + r.events[|evs|..];
        ChainedAppend(events, r.events, socket.pos + socket.shown, at, at + m.rxBump, size);
        conn, events := r.conn, events + r.events;
      }
    }

    /** Dispatch the next event to the socket; the two-piece view is never exceeded. */
    method Dispatch() returns (aborted: bool)
      requires Valid()
      modifies this, socket
      ensures Valid() && !aborted && conn == old(conn) && socket.pos == old(socket.pos)
      ensures events == if old(events) == [] then [] else old(events)[1..]
    {
      hide Cell;
      aborted := false;
      if |events| > 0 {
        var ev := events[0];
        events := events[1..];
        if ev.RxData? {
          ChainedLe(events, socket.pos + socket.shown + ev.len, socket.pos + conn.rxbUsed, socket.size);
          aborted := socket.Received(socket.base + ev.off, ev.len);
        }
      }
    }

    /** recv: the next bytes of the stream, and their space is given back. */
    method Recv(ring: seq<Byte>, len: nat, ghost stream: seq<Byte>) returns (got: seq<Byte>)
      requires Valid() && |ring| == socket.size
      requires Holds(ring, stream, socket.pos, socket.pos + conn.rxbUsed)
      modifies this, socket
      ensures Valid() && |got| == Min(len, old(socket.shown))
      ensures socket.pos == old(socket.pos) + |got| <= |stream| && got == stream[old(socket.pos)..socket.pos]
      ensures conn == if |got| > 0 then RxDone(old(conn), |got|).0 else old(conn)
    {
      hide Cell, Chained, Read;
      ghost var p, n, used := socket.pos, socket.shown, conn.rxbUsed;
      ChainedLe(events, p + n, p + used, socket.size);
      got := socket.Take(ring, len);
      ReadHolds(ring, stream, p, |got|);
      assert socket.pos + socket.shown == p + n;
      if |got| > 0 {
        assert RxDone(conn, |got|).1;
        conn := RxDone(conn, |got|).0;
        assert socket.pos + conn.rxbUsed == p + used;
      }
    }

    /** recvmsg: the vector elements hold, one after the other, the next bytes of the stream. */
    method RecvMsg(ring: seq<Byte>, lens: seq<nat>, ghost stream: seq<Byte>) returns (parts: seq<seq<Byte>>)
      requires Valid() && |ring| == socket.size
      requires Holds(ring, stream, socket.pos, socket.pos + conn.rxbUsed)
      modifies this, socket
      ensures Valid() && |parts| <= |lens| && |Flatten(parts)| == Min(Sum(lens), old(socket.shown))
      ensures socket.pos == old(socket.pos) + |Flatten(parts)| <= |stream|
      ensures Flatten(parts) == stream[old(socket.pos)..socket.pos]
      ensures forall i :: 0 <= i < |parts| ==> |parts[i]| <= lens[i]
      ensures conn == if |Flatten(parts)| > 0 then RxDone(old(conn), |Flatten(parts)|).0 else old(conn)
    {
      hide Cell, Chained, Read;
      ghost var p, n, used := socket.pos, socket.shown, conn.rxbUsed;
      ChainedLe(events, p + n, p + used, socket.size);
      parts := socket.TakeAll(ring, lens);
      var got := |Flatten(parts)|;
      ReadHolds(ring, stream, p, got);
      assert socket.pos + socket.shown == p + n;
      if got > 0 {
        assert RxDone(conn, got).1;
        conn := RxDone(conn, got).0;
        assert socket.pos + conn.rxbUsed == p + used;
      }
    }
  }
}
