/** The library's context with its list of connections that have something to tell the fast path
    (lib/tas/conn.c, lib/tas/init.c). Each operation changes the connection in place as the function of
    the same name says, and the list keeps who is waiting, in order. */
module LibContext {
  import opened Arith
  import opened FlowState
  import LibConn
  import opened LinkedList

  /** struct flextcp_connection with its bump_next and bump_prev pointers. */
  type Connection = Node<LibConn.Conn>

  /** Following the next pointers visits `nodes`; the prev pointers are not maintained on removal. */
  ghost predicate Singly(nodes: seq<Connection>)
    reads (set t | t in nodes)`next
  {
    && Distinct(nodes)
    && forall i {:trigger nodes[i].next} :: 0 <= i < |nodes| ==> nodes[i].next == Successor(nodes, i + 1)
  }

  /** An entry for the fast path, and whose it is. */
  datatype Entry = Entry(conn: Connection, bump: AppBump)

  /** How many of the entries went to the queue of core q. */
  function Uses(entries: seq<Entry>, fnCore: map<Connection, nat>, q: nat): nat {
    if |entries| == 0 then 0
    else
      var e := entries[|entries| - 1].conn;
      Uses(entries[..|entries| - 1], fnCore, q) + if e in fnCore && fnCore[e] == q then 1 else 0
  }

  class Context {
    ghost const conns: set<Connection>
    var first: Node?<LibConn.Conn>
    var last: Node?<LibConn.Conn>
    ghost var pending: seq<Connection>

    ghost predicate Linked()
      reads this, (set c | c in pending)`next
    {
      Singly(pending) && first == Successor(pending, 0) && last == Successor(pending, |pending| - 1)
    }

    /** The list holds exactly the connections marked as waiting, all of them open. */
    ghost predicate Marked()
      reads this, conns`data
    {
      && (forall c <- pending :: c in conns)
      && (forall c <- conns :: c.data.bumpPending <==> c in pending)
      && (forall c <- conns :: LibConn.ConnValid(c.data) && (c.data.bumpPending ==> c.data.status.Open?))
    }

    ghost predicate Valid()
      reads this, pending, conns
    {
      Linked() && Marked()
    }

    constructor (ghost conns: set<Connection>)
      requires forall c <- conns :: !c.data.bumpPending && LibConn.ConnValid(c.data)
      ensures Valid() && this.conns == conns && pending == []
    {
      this.conns := conns;
      first, last, pending := null, null, [];
    }

    /** What closing the only waiting connection leaves behind: no first element, and a last one that is not
        waiting.  Elements appended to it are never found again. */
    ghost predicate Stuck()
      reads this
    {
      first == null && last != null && last in conns
    }

    /** Put a connection that is not waiting at the end of the list. */
    method Append(conn: Connection)
      requires (Linked() || Stuck()) && conn in conns && conn !in pending && forall c <- pending :: c in conns
      modifies this, conn`next, conn`prev, conns`next
      ensures pending == old(pending) + [conn] && (old(Linked()) ==> Linked()) && (old(Stuck()) ==> Stuck())
    {
      conn.next := null;
      conn.prev := last;
      if last != null {
        last.next := conn;
      } else {
        first := conn;
      }
      last := conn;
      pending := pending + [conn];
    }

    /** conn_mark_bump: queue a connection once. */
    method MarkBump(conn: Connection)
      requires Marked() && (Linked() || Stuck()) && conn in conns && conn.data.status.Open?
      modifies this, conn, conns`next
      ensures Marked() && (old(Linked()) ==> Linked()) && (old(Stuck()) ==> Stuck())
      ensures conn.data == old(conn.data).(bumpPending := true)
      ensures pending == old(pending) + if old(conn.data.bumpPending) then [] else [conn]
    {
      hide Singly, Linked, LibConn.ConnValid;
      Pended(conn.data);
      if conn.data.bumpPending {
        return;
      }
      Append(conn);
      conn.data := conn.data.(bumpPending := true);
    }

    lemma Pended(d: LibConn.Conn)
      ensures LibConn.ConnValid(d) ==> LibConn.ConnValid(d.(bumpPending := true))
    {
    }

    /** The element before a waiting connection that is not the first; none in a list that has lost its first
        element. */
    method FindBefore(conn: Connection, ghost k: nat) returns (c: Node?<LibConn.Conn>)
      requires Stuck() || (Linked() && 0 < k < |pending| && pending[k] == conn)
      ensures if Stuck() then c == null else c == pending[k - 1]
    {
      c := first;
      ghost var i := 0;
      while c != null && c.next != conn
        invariant if Stuck() then c == null else 0 <= i < k && c == pending[i]
        decreases k - i
      {
        c, i := c.next, i + 1;
      }
    }

    /** Take a waiting connection off the list, wherever it is.  When it is the first, the end of the list is
        not looked at; when it is not found, the source aborts. */
    method Unlink(conn: Connection, ghost k: nat) returns (aborted: bool)
      requires (Linked() || Stuck()) && k < |pending| && pending[k] == conn && forall c <- pending :: c in conns
      modifies this, (set c | c in pending)`next
      ensures aborted == old(Stuck())
      ensures aborted ==> pending == old(pending) && Stuck()
      ensures !aborted ==> pending == Removed(old(pending), k) && forall c :: c in pending <==> c in old(pending) && c != conn
      ensures !aborted ==> if |old(pending)| == 1 then Stuck() else Linked()
    {
      hide Removed;
      if conn == first {
        first := conn.next;
      } else {
        var c := FindBefore(conn, k);
        if c == null {
          return true;
        }
        c.next := conn.next;
        if c.next == null {
          last := c;
        }
      }
      aborted := false;
      RemovedEnds(pending, k);
      OthersStay(pending, k);
      BypassedSingly(pending, k);
      pending := Removed(pending, k);
    }

    /** A connection stops waiting. */
    method Withdraw(conn: Connection) returns (aborted: bool)
      requires Marked() && (Linked() || Stuck()) && conn in conns
      modifies this, conn`data, conns`next
      ensures aborted == old(Stuck() && conn.data.bumpPending)
      ensures Marked() && conn.data == (if aborted then old(conn.data) else old(conn.data).(bumpPending := false))
      ensures conn !in old(pending) || aborted ==> pending == old(pending)
      ensures !aborted ==>
        forall k :: 0 <= k < |old(pending)| && old(pending)[k] == conn ==> pending == Removed(old(pending), k)
      ensures if old(Stuck()) || old(pending) == [conn] then Stuck() else Linked()
    {
      hide Singly, Linked, Removed, LibConn.ConnValid;
      aborted := false;
      if conn.data.bumpPending {
        ghost var k :| 0 <= k < |pending| && pending[k] == conn;
        Once(k);
        aborted := Unlink(conn, k);
        if aborted {
          return;
        }
        Bookkept(conn.data);
        conn.data := conn.data.(bumpPending := false);
      }
    }

    /** No connection is in a list twice. */
    lemma Once(k: nat)
      requires Marked() && (Linked() || Stuck()) && k < |pending|
      ensures (forall c <- pending :: c in conns)
      ensures Linked() ==> !Stuck() && forall j :: 0 <= j < |pending| && pending[j] == pending[k] ==> j == k
    {
    }

    lemma Bookkept(d: LibConn.Conn)
      ensures LibConn.ConnValid(d) ==> LibConn.ConnValid(d.(bumpPending := false))
      ensures LibConn.ConnValid(d) ==> LibConn.ConnValid(d.(status := LibConn.Closing))
    {
    }

    lemma StuckNotLinked()
      requires Stuck()
      ensures !Linked()
    {
    }

    twostate lemma StuckOrLinked()
      ensures old(Stuck()) ==> !old(Linked())
    {
    }

    /** flextcp_connection_close.  The list of the others stays in order and can be walked, unless the
        connection was the only one waiting; without room in the queue to the slow path the close fails
        after that.  A waiting connection of a list that has lost its first element is not found: abort. */
    method Close(conn: Connection, room: bool) returns (ok: bool, aborted: bool)
      requires Marked() && (Linked() || Stuck()) && conn in conns
      modifies this, conn`data, conns`next
      ensures aborted == old(Stuck() && conn.data.bumpPending) && Marked() && ok == (room && !aborted)
      ensures aborted ==> conn.data == old(conn.data) && pending == old(pending) && Stuck()
      ensures !aborted ==>
        conn.data == old(conn.data).(bumpPending := false, status := if ok then LibConn.Closing else old(conn.data.status))
      ensures conn !in old(pending) ==> pending == old(pending)
      ensures !aborted ==>
        forall k :: 0 <= k < |old(pending)| && old(pending)[k] == conn ==> pending == Removed(old(pending), k)
      ensures Linked() <==> old(Linked()) && old(pending) != [conn]
      ensures !Linked() ==> Stuck()
    {
      hide Singly, Linked, Removed, LibConn.ConnValid;
      aborted := Withdraw(conn);
      if !aborted {
        Bookkept(conn.data);
        if room {
          conn.data := conn.data.(status := LibConn.Closing);
        }
      }
      if Stuck() {
        StuckNotLinked();
      }
      StuckOrLinked();
      ok := room && !aborted;
    }

    /** Write back a connection's bookkeeping. */
    method Store(conn: Connection, d: LibConn.Conn)
      requires Valid() && conn in conns && LibConn.ConnValid(d)
      requires d.bumpPending == conn.data.bumpPending && (d.bumpPending ==> d.status.Open?)
      modifies conn`data
      ensures Valid() && conn.data == d
    {
      hide Singly, LibConn.ConnValid;
      conn.data := d;
    }

    /** flextcp_connection_tx_alloc2. */
    method TxAlloc2(conn: Connection, len: nat) returns (granted: LibConn.Grant)
      requires Valid() && conn in conns && conn.data.status.Open?
      modifies conn`data
      ensures Valid() && (conn.data, granted) == LibConn.TxAlloc2(old(conn.data), len)
    {
      hide Singly;
      var d := conn.data;
      if d.txEos {
        return LibConn.Closed;
      }
      var avail := d.txbLen - d.txbSent - d.txbAllocated;
      var n := len;
      if avail < n {
        n := avail;
      }
      var head := d.txbHead + d.txbAllocated;
      if head >= d.txbLen {
        head := head - d.txbLen;
      }
      var len1 := n;
      if head + n > d.txbLen {
        len1 := d.txbLen - head;
      }
      Store(conn, d.(txbAllocated := d.txbAllocated + n));
      granted := LibConn.Grant(n, head, len1);
    }

    /** flextcp_connection_tx_send. */
    method TxSend(conn: Connection, len: nat) returns (ok: bool)
      requires Valid() && conn in conns && conn.data.status.Open?
      modifies this, conn, conns`next
      ensures Valid() && (conn.data, ok) == LibConn.TxSend(old(conn.data), len)
      ensures pending == old(pending) + if ok && !old(conn.data.bumpPending) then [conn] else []
    {
      hide Singly, Linked, Marked;
      Bookkeeping(conn);
      var d := conn.data;
      if d.txbAllocated < len {
        return false;
      }
      d := d.(txbAllocated := d.txbAllocated - len, txbSent := d.txbSent + len);
      var nextHead := d.txbHead + len;
      if nextHead >= d.txbLen {
        nextHead := nextHead - d.txbLen;
      }
      d := d.(txbHead := nextHead, txbBump := d.txbBump + len);
      Store(conn, d);
      MarkBump(conn);
      ok := true;
    }

    lemma Bookkeeping(conn: Connection)
      requires Valid() && conn in conns
      ensures LibConn.ConnValid(conn.data) && (conn.data.bumpPending ==> conn.data.status.Open?)
    {
    }

    /** flextcp_conn_pushtxeos. */
    method PushTxEos(conn: Connection) returns (ok: bool)
      requires Valid() && conn in conns && conn.data.status.Open? && conn.data.txEos
      modifies this, conn, conns`next
      ensures Valid() && (conn.data, ok) == LibConn.PushTxEos(old(conn.data))
      ensures pending == old(pending) + if ok && !old(conn.data.bumpPending) then [conn] else []
    {
      hide Singly, Linked, Marked;
      Bookkeeping(conn);
      var d := conn.data;
      if d.txbLen - d.txbSent - d.txbAllocated == 0 {
        return false;
      }
      var head := d.txbHead + 1;
      if head >= d.txbLen {
        head := head - d.txbLen;
      }
      Store(conn, d.(txbSent := d.txbSent + 1, txbHead := head, txEosAlloc := true, txbBump := d.txbBump + 1));
      MarkBump(conn);
      ok := true;
    }

    /** flextcp_connection_tx_close: without room for the end-of-stream byte it is postponed. */
    method TxClose(conn: Connection) returns (ok: bool)
      requires Valid() && conn in conns && conn.data.status.Open?
      modifies this, conn, conns`next
      ensures Valid() && (conn.data, ok) == LibConn.TxClose(old(conn.data))
    {
      hide Singly, Linked, Marked;
      Bookkeeping(conn);
      if conn.data.txbAllocated > 0 || conn.data.txEos {
        return false;
      }
      Store(conn, conn.data.(txEos := true));
      var pushed := PushTxEos(conn);
      ok := true;
    }

    /** flextcp_connection_rx_done. */
    method RxDone(conn: Connection, len: nat) returns (ok: bool)
      requires Valid() && conn in conns && conn.data.status.Open?
      modifies this, conn, conns`next
      ensures Valid() && (conn.data, ok) == LibConn.RxDone(old(conn.data), len)
    {
      hide Singly, Linked, Marked;
      Bookkeeping(conn);
      var d := conn.data;
      if d.rxbUsed < len {
        return false;
      }
      d := d.(rxbUsed := d.rxbUsed - len);
      d := d.(rxbBump := d.rxbBump + len);
      Store(conn, d);
      if d.rxbBump > d.rxbLen / 4 {
        MarkBump(conn);
      }
      ok := true;
    }

    /** The receive part of event_arx_connupdate. */
    method TakeRx(conn: Connection, rxBump: nat) returns (events: seq<LibConn.Event>)
      requires Valid() && conn in conns && conn.data.status.Open? && conn.data.rxbUsed + rxBump <= conn.data.rxbLen
      modifies conn`data
      ensures Valid() && conn.data == LibConn.RxUpdate(old(conn.data), rxBump)
      ensures old(conn.data.rxbHead <= conn.data.rxbLen) && events == LibConn.RxEvents(old(conn.data), rxBump)
    {
      hide Singly, Linked, Marked;
      Bookkeeping(conn);
      events := [];
      var d := conn.data;
      if rxBump > 0 {
        if d.rxbHead + rxBump > d.rxbLen {
          var rxLen := d.rxbLen - d.rxbHead;
          events := [LibConn.RxData(d.rxbHead, rxLen), LibConn.RxData(0, rxBump - rxLen)];
        } else {
          events := [LibConn.RxData(d.rxbHead, rxBump)];
        }
        var head := d.rxbHead + rxBump;
        if head >= d.rxbLen {
          head := head - d.rxbLen;
        }
        Store(conn, d.(rxbHead := head, rxbUsed := d.rxbUsed + rxBump));
      }
    }

    /** The transmit part of event_arx_connupdate; the push of a postponed end of stream finds room. */
    method TakeTx(conn: Connection, txBump: nat) returns (events: seq<LibConn.Event>)
      requires Valid() && conn in conns && conn.data.status.Open? && txBump <= conn.data.txbSent
      modifies this, conn, conns`next
      ensures Valid() && LibConn.ConnValid(old(conn.data))
      ensures (conn.data, events) == LibConn.TxUpdate(old(conn.data), txBump)
    {
      hide Singly, Linked, Marked;
      Bookkeeping(conn);
      events := [];
      var d := conn.data;
      if txBump > 0 {
        if d.txbLen - d.txbSent - d.txbAllocated == 0 {
          events := [LibConn.SendBuf];
        }
        Store(conn, d.(txbSent := d.txbSent - txBump));
        if d.txEos && !d.txEosAlloc {
          var pushed := PushTxEos(conn);
          assert pushed;
        } else if d.txEosAlloc {
          if conn.data.txbSent == 0 {
            Store(conn, conn.data.(txEosAck := true));
            events := events + [LibConn.TxClosed];
          }
        }
      }
    }

    /** event_arx_connupdate; it is left in the ring when the events do not fit. */
    method ArxConnUpdate(conn: Connection, m: LibConn.Update, outn: nat) returns (retry: bool, events: seq<LibConn.Event>)
      requires Valid() && conn in conns && LibConn.UpdateValid(conn.data, m)
      modifies this, conn, conns`next
      ensures Valid() && LibConn.ConnValid(old(conn.data))
      ensures var r := LibConn.ConnUpdate(old(conn.data), m, outn);
        retry == r.Retry? && (if retry then conn.data == old(conn.data) else conn.data == r.conn && events == r.events)
    {
      hide Singly, Linked, Marked, LibConn.TxUpdate, LibConn.RxEvents;
      Bookkeeping(conn);
      var d := conn.data;
      retry, events := false, [];
      if d.status.OpenRequested? {
        Store(conn, d.(rxClosed := m.fin, rxbHead := d.rxbHead + m.rxBump, rxbUsed := d.rxbUsed + m.rxBump));
        return;
      } else if d.status.Closing? {
        return;
      }
      var needed := EventsNeeded(conn, m);
      LibConn.NeededIsRaised(d, m);
      if needed > outn {
        retry := true;
        return;
      }
      var rx := TakeRx(conn, m.rxBump);
      var tx := TakeTx(conn, m.txBump);
      events := rx + tx;
      if m.fin {
        Bookkeeping(conn);
        events := events + [LibConn.RxClosed];
        Store(conn, conn.data.(rxClosed := true));
      }
    }

    /** The counting part of event_arx_connupdate: as many as the update raises, and one for a TXCLOSED that
        is not raised when the own stream has long been closed. */
    method EventsNeeded(conn: Connection, m: LibConn.Update) returns (n: nat)
      requires LibConn.ConnValid(conn.data) && conn.data.status.Open? && LibConn.UpdateValid(conn.data, m)
      ensures n == |LibConn.Raised(conn.data, m)| + if LibConn.LongClosed(conn.data, m) then 1 else 0
    {
      hide LibConn.Raised, LibConn.ConnValid;
      var d := conn.data;
      n := 0;
      if m.rxBump > 0 {
        n := n + 1;
        if d.rxbHead + m.rxBump > d.rxbLen {
          n := n + 1;
        }
      }
      if m.txBump > 0 && d.txbLen - d.txbSent - d.txbAllocated == 0 {
        n := n + 1;
      }
      if d.txEosAlloc && d.txbSent - m.txBump == 0 {
        n := n + 1;
      }
      if m.fin {
        n := n + 1;
      }
      LibConn.NeededIsRaised(d, m);
    }

    /** event_kappin_conn_opened: the slow path has set the connection up, or failed to. */
    method ConnOpened(conn: Connection, ok: bool, rxLen: nat, txLen: nat, outn: nat)
      returns (retry: bool, events: seq<LibConn.Event>)
      requires Valid() && conn in conns && conn.data.status.OpenRequested?
      requires ok ==> conn.data.rxbHead <= rxLen && conn.data.txbHead < txLen && conn.data.txbSent + conn.data.txbAllocated <= txLen
      modifies conn`data
      ensures Valid()
      ensures var r := LibConn.ConnOpened(old(conn.data), ok, rxLen, txLen, outn);
        retry == r.Retry? && (if retry then conn.data == old(conn.data) else conn.data == r.conn && events == r.events)
    {
      hide Singly, Linked, Marked;
      Bookkeeping(conn);
      var d := conn.data;
      retry, events := false, [LibConn.ConnOpen(ok)];
      if !ok {
        Store(conn, d.(status := LibConn.Closing));
        return;
      }
      if (d.rxbUsed > 0 && d.rxClosed && outn < 3) || ((d.rxbUsed > 0 || d.rxClosed) && outn < 2) {
        retry := true;
        return;
      }
      Store(conn, d.(status := LibConn.Open, rxbLen := rxLen, txbLen := txLen));
      if d.rxbUsed > 0 {
        events := events + [LibConn.RxData(0, d.rxbUsed)];
      }
      if d.rxClosed {
        events := events + [LibConn.RxClosed];
      }
    }

    /** The loop body of conns_bump: write the entry of the first waiting connection and take it off the list. */
    method FlushFirst(ghost head: Connection) returns (e: Entry)
      requires Valid() && |pending| > 0 && head == pending[0]
      modifies this, head`data
      ensures Valid() && pending == old(pending)[1..] && e.conn == head
      ensures (head.data, e.bump) == LibConn.Flush(old(head.data))
    {
      hide LibConn.ConnValid;
      var c := first;
      var d := c.data;
      assert c.next == Successor(pending, 1);
      e := Entry(c, AppBump(d.rxbBump, d.txbBump, U16(d.bumpSeq), d.txEosAlloc));
      c.data := d.(bumpSeq := d.bumpSeq + 1, rxbBump := 0, txbBump := 0, bumpPending := false);
      if c.next == null {
        last := null;
      }
      first := c.next;
      pending := pending[1..];
      FlushKeepsValid(d);
    }

    lemma FlushKeepsValid(d: LibConn.Conn)
      requires LibConn.ConnValid(d)
      ensures LibConn.ConnValid(LibConn.Flush(d).0)
    {
    }

    /** Waiting connections are flushed in order until one finds the queue of its core full. */
    method FlushWaiting(slots: seq<nat>, fnCore: map<Connection, nat>) returns (entries: seq<Entry>, left: seq<nat>)
      requires Valid() && forall c <- conns :: c in fnCore && fnCore[c] < |slots|
      modifies this, conns`data
      ensures Valid() && |left| == |slots| && |entries| <= |old(pending)| && pending == old(pending)[|entries|..]
      ensures forall i :: 0 <= i < |entries| ==>
        entries[i].conn == old(pending)[i]
        && (entries[i].conn.data, entries[i].bump) == LibConn.Flush(old(pending[i].data))
      ensures forall c <- conns :: c !in old(pending)[..|entries|] ==> c.data == old(c.data)
      ensures |pending| > 0 ==> pending[0] in fnCore && left[fnCore[pending[0]]] == 0
      ensures forall q :: 0 <= q < |slots| ==> left[q] + Uses(entries, fnCore, q) == slots[q]
    {
      hide Linked, Marked, LibConn.Flush;
      entries, left := [], slots;
      ghost var was := pending;
      Waiting();
      assert was[0..] == was;
      while first != null
        invariant Valid() && |left| == |slots| && |entries| <= |was| && pending == was[|entries|..]
        invariant first == Successor(pending, 0)
        invariant forall i :: 0 <= i < |entries| ==> entries[i].conn == was[i]
        invariant forall i :: 0 <= i < |entries| ==>
          (was[i].data, entries[i].bump) == LibConn.Flush(old(was[i].data))
        invariant forall c <- conns :: c !in was[..|entries|] ==> c.data == old(c.data)
        invariant forall q :: 0 <= q < |slots| ==> left[q] + Uses(entries, fnCore, q) == slots[q]
        decreases |was| - |entries|
      {
        ghost var n := |entries|;
        assert first == was[n] && was[n] !in was[..n];
        var core := fnCore[first];
        if left[core] == 0 {
          break;
        }
        left := left[core := left[core] - 1];
        var e := FlushFirst(first);
        Waiting();
        TakeOneMore(was, n);
        assert (entries + [e])[..n] == entries;
        entries := entries + [e];
      }
    }

    /** conns_bump.  Once the list is stuck, nothing is flushed any more, whoever is waiting. */
    method ConnsBump(slots: seq<nat>, fnCore: map<Connection, nat>) returns (entries: seq<Entry>, left: seq<nat>)
      requires Marked() && (Linked() || Stuck()) && forall c <- conns :: c in fnCore && fnCore[c] < |slots|
      modifies this, conns`data
      ensures Marked() && (if old(Linked()) then Linked() else Stuck() && entries == [])
      ensures |left| == |slots| && |entries| <= |old(pending)| && pending == old(pending)[|entries|..]
      ensures forall i :: 0 <= i < |entries| ==>
        entries[i].conn == old(pending)[i]
        && (entries[i].conn.data, entries[i].bump) == LibConn.Flush(old(pending[i].data))
      ensures forall c <- conns :: c !in old(pending)[..|entries|] ==> c.data == old(c.data)
      ensures |pending| > 0 && old(Linked()) ==> pending[0] in fnCore && left[fnCore[pending[0]]] == 0
      ensures forall q :: 0 <= q < |slots| ==> left[q] + Uses(entries, fnCore, q) == slots[q]
    {
      hide Singly, Marked, LibConn.Flush;
      if first == null {
        return [], slots;
      }
      entries, left := FlushWaiting(slots, fnCore);
    }

    lemma Waiting()
      requires Valid()
      ensures Distinct(pending) && first == Successor(pending, 0) && forall c <- pending :: c in conns
    {
    }
  }

  /** The only waiting connection is closed. */
  method LoseFirst(ctx: Context, c: Connection)
    requires ctx.Marked() && ctx.Linked() && ctx.pending == [] && c in ctx.conns && c.data.status.Open? && !c.data.bumpPending
    modifies ctx, c, ctx.conns`next
    ensures ctx.Marked() && ctx.Stuck() && ctx.pending == []
  {
    hide Context.Marked, Context.Linked, Removed;
    ctx.MarkBump(c);
    ghost var was := ctx.pending;
    assert was == [c] && was[0] == c;
    if ctx.Stuck() {
      ctx.StuckNotLinked();
    }
    var ok, aborted := ctx.Close(c, true);
    assert ctx.pending == Removed(was, 0);
  }

  /** Another starts waiting: it is not flushed although its queue has room, and closing it aborts. */
  method NeverSent(ctx: Context, c: Connection, fnCore: map<Connection, nat>)
    returns (entries: seq<Entry>, waiting: bool, aborted: bool)
    requires ctx.Marked() && ctx.Stuck() && c in ctx.conns && c.data.status.Open?
    requires forall x <- ctx.conns :: x in fnCore && fnCore[x] == 0
    modifies ctx, c, ctx.conns`next, ctx.conns`data
    ensures entries == [] && waiting && aborted
  {
    hide Context.Marked, Context.Linked;
    ctx.MarkBump(c);
    ctx.StuckNotLinked();
    var left;
    entries, left := ctx.ConnsBump([1], fnCore);
    waiting := c.data.bumpPending;
    var ok;
    ok, aborted := ctx.Close(c, true);
  }

  method LostBumpExample() returns (entries: seq<Entry>, waiting: bool, aborted: bool)
    ensures entries == [] && waiting && aborted
  {
    hide Context.Marked, Context.Linked;
    var d := LibConn.Conn(LibConn.Open, 4, 0, 0, 0, 4, 0, 0, 0, 0, 0, false, false, false, false, false);
    var c1 := new Node(d);
    var c2 := new Node(d);
    var ctx := new Context({c1, c2});
    LoseFirst(ctx, c1);
    entries, waiting, aborted := NeverSent(ctx, c2, map[c1 := 0, c2 := 0]);
  }

  /** A bypassed node is out of the list. */
  lemma BypassedSingly(s: seq<Connection>, k: nat)
    requires k < |s| && Distinct(s)
    requires forall i {:trigger s[i].next} :: 0 <= i < |s| ==> s[i].next == Successor(s, if i == k - 1 then k + 1 else i + 1)
    ensures Singly(Removed(s, k))
  {
    hide Removed;
    RemovedEnds(s, k);
    forall i | 0 <= i < |Removed(s, k)|
      ensures Removed(s, k)[i].next == Successor(Removed(s, k), i + 1)
    {
      RemovedLinks(s, k, i);
    }
  }

  lemma OthersStay(s: seq<Connection>, k: nat)
    requires k < |s| && Distinct(s)
    ensures forall c :: c in Removed(s, k) <==> c in s && c != s[k]
  {
    forall c | c in s && c != s[k]
      ensures c in Removed(s, k)
    {
      var i :| 0 <= i < |s| && s[i] == c;
      assert Removed(s, k)[if i < k then i else i - 1] == c;
    }
  }

  lemma TakeOneMore(s: seq<Connection>, n: nat)
    requires n < |s|
    ensures s[..n + 1] == s[..n] + [s[n]] && s[n..][1..] == s[n + 1..]
  {
  }
}
