/** One connection as the application library sees it (lib/tas/conn.c, lib/tas/init.c). */
module LibConn {
  import opened Arith
  import opened Circular
  import opened FlowState

  /** OpenRequested also stands for an accepted connection not yet confirmed, Closing for every state after
      the close request or a failed open. */
  datatype Status = OpenRequested | Open | Closing

  /** The buffer bookkeeping of struct flextcp_connection. */
  datatype Conn = Conn(status: Status,
                       rxbLen: nat, rxbHead: nat, rxbUsed: nat, rxbBump: nat,
                       txbLen: nat, txbHead: nat, txbSent: nat, txbAllocated: nat, txbBump: nat,
                       bumpSeq: nat, bumpPending: bool,
                       txEos: bool, txEosAlloc: bool, txEosAck: bool, rxClosed: bool)

  /** A connection update from the fast path. */
  datatype Update = Update(rxBump: nat, txBump: nat, fin: bool)

  datatype Event = ConnOpen(ok: bool) | RxData(off: nat, len: nat) | SendBuf | TxClosed | RxClosed

  /** An update the connection has room for. */
  predicate UpdateValid(c: Conn, m: Update) {
    c.status.Closing? || (m.txBump <= c.txbSent && (c.status.Open? ==> c.rxbUsed + m.rxBump <= c.rxbLen))
  }

  predicate ConnValid(c: Conn) {
    && (c.status.Open? ==> 0 < c.txbLen && c.txbHead < c.txbLen && c.rxbHead <= c.rxbLen)
    && c.txbSent + c.txbAllocated <= c.txbLen
    && (c.txEos ==> c.txbAllocated == 0)
    && (c.txEosAlloc ==> c.txEos)
  }

  /** conn_tx_allocbytes. */
  function AllocBytes(c: Conn): nat
    requires ConnValid(c)
  {
    c.txbLen - c.txbSent - c.txbAllocated
  }

  /** flextcp_connection_tx_alloc2: the space granted, as one or two pieces of the buffer. */
  datatype Grant = Closed | Grant(len: nat, off1: nat, len1: nat)

  function TxAlloc2(c: Conn, len: nat): (Conn, Grant)
    requires ConnValid(c) && c.status.Open?
  {
    if c.txEos then (c, Closed)
    else
      var n := Min(len, AllocBytes(c));
      var head := Bump(c.txbHead, c.txbAllocated, c.txbLen);
      (c.(txbAllocated := c.txbAllocated + n), Grant(n, head, if head + n > c.txbLen then c.txbLen - head else n))
  }

  /** A grant is as long as asked for and possible, starts right behind what is reserved already, and has a second
      piece, at the start of the buffer, exactly if it does not fit before the end. */
  lemma GrantExact(c: Conn, len: nat)
    requires ConnValid(c) && c.status.Open? && !c.txEos
    ensures var (c', g) := TxAlloc2(c, len);
      && g.Grant? && c' == c.(txbAllocated := c.txbAllocated + g.len)
      && g.len <= len && c.txbSent + c.txbAllocated + g.len <= c.txbLen
      && (g.len < len ==> c.txbSent + c.txbAllocated + g.len == c.txbLen)
      && g.off1 == Cell(c.txbHead + c.txbAllocated, c.txbLen)
      && g.len1 <= g.len && g.off1 + g.len1 <= c.txbLen && (g.len1 < g.len ==> g.off1 + g.len1 == c.txbLen)
      && g.len - g.len1 <= g.off1
  {
    hide Cell;
    CellSmall(c.txbHead, c.txbLen);
    CellBump(c.txbHead, c.txbAllocated, c.txbLen);
  }

  lemma CellSmall(j: nat, len: nat)
    requires j < len
    ensures Cell(j, len) == j
  {
  }

  /** flextcp_connection_tx_send; false when more is sent than was allocated. */
  function TxSend(c: Conn, len: nat): (Conn, bool)
    requires ConnValid(c) && c.status.Open?
  {
    if c.txbAllocated < len then (c, false)
    else (c.(txbAllocated := c.txbAllocated - len, txbSent := c.txbSent + len,
             txbHead := Bump(c.txbHead, len, c.txbLen), txbBump := c.txbBump + len, bumpPending := true), true)
  }

  /** Sending succeeds exactly if that much is reserved; it moves the bytes from the reserved to the sent ones, in front. */
  lemma SendIff(c: Conn, len: nat)
    requires ConnValid(c) && c.status.Open?
    ensures var (c', ok) := TxSend(c, len);
      && (ok <==> len <= c.txbAllocated) && (!ok ==> c' == c)
      && (ok ==> c'.txbSent + c'.txbAllocated == c.txbSent + c.txbAllocated && c'.txbSent == c.txbSent + len
                 && Cell(c'.txbHead + c'.txbAllocated, c.txbLen) == Cell(c.txbHead + c.txbAllocated, c.txbLen)
                 && c'.txbBump == c.txbBump + len && c'.bumpPending && ConnValid(c'))
  {
    if len <= c.txbAllocated {
      CellSmall(c.txbHead, c.txbLen);
      CellBump(c.txbHead, len, c.txbLen);
      CellAbsorb(c.txbHead + len, c.txbAllocated - len, c.txbLen);
    }
  }

  /** flextcp_conn_pushtxeos: one dummy byte stands for the end of the stream. */
  function PushTxEos(c: Conn): (Conn, bool)
    requires ConnValid(c) && c.status.Open? && c.txEos
  {
    if AllocBytes(c) == 0 then (c, false)
    else (c.(txbSent := c.txbSent + 1, txbHead := Bump(c.txbHead, 1, c.txbLen), txEosAlloc := true,
             txbBump := c.txbBump + 1, bumpPending := true), true)
  }

  /** flextcp_connection_tx_close. */
  function TxClose(c: Conn): (Conn, bool)
    requires ConnValid(c) && c.status.Open?
  {
    if c.txbAllocated > 0 || c.txEos then (c, false)
    else (PushTxEos(c.(txEos := true)).0, true)
  }

  /** Closing succeeds exactly if nothing is reserved and the stream was not closed before; it then is closed, with the
      mark in the buffer unless that is full. */
  lemma CloseIff(c: Conn)
    requires ConnValid(c) && c.status.Open?
    ensures var (c', ok) := TxClose(c);
      && (ok <==> c.txbAllocated == 0 && !c.txEos)
      && (ok ==> c'.txEos && (c'.txEosAlloc <==> c.txEosAlloc || c.txbSent < c.txbLen))
      && (!ok ==> c' == c)
  {
  }

  /** flextcp_connection_rx_done: freed bytes are announced once they exceed a quarter of the buffer. */
  function RxDone(c: Conn, len: nat): (Conn, bool) {
    if c.rxbUsed < len then (c, false)
    else
      var bump := c.rxbBump + len;
      (c.(rxbUsed := c.rxbUsed - len, rxbBump := bump, bumpPending := c.bumpPending || bump > c.rxbLen / 4), true)
  }

  /** Giving back succeeds exactly if that much is unread; the bytes count as freed, and the connection waits for its bump
      exactly if it did before or more than a quarter of the buffer is freed. */
  lemma DoneIff(c: Conn, len: nat)
    ensures var (c', ok) := RxDone(c, len);
      && (ok <==> len <= c.rxbUsed) && (!ok ==> c' == c)
      && (ok ==> c'.rxbUsed + len == c.rxbUsed && c'.rxbUsed + c'.rxbBump == c.rxbUsed + c.rxbBump
                 && (c'.bumpPending <==> c.bumpPending || c'.rxbBump > c.rxbLen / 4))
  {
  }

  /** The entry conns_bump writes for a connection on the pending list. */
  function Flush(c: Conn): (Conn, AppBump) {
    (c.(rxbBump := 0, txbBump := 0, bumpPending := false, bumpSeq := c.bumpSeq + 1),
     AppBump(c.rxbBump, c.txbBump, U16(c.bumpSeq), c.txEosAlloc))
  }

  datatype UpdateResult = Retry | Updated(conn: Conn, events: seq<Event>)

  function RxEvents(c: Conn, rxBump: nat): seq<Event>
    requires c.rxbHead <= c.rxbLen
  {
    if rxBump == 0 then []
    else if c.rxbHead + rxBump > c.rxbLen then
      var first := c.rxbLen - c.rxbHead;
      [RxData(c.rxbHead, first), RxData(0, rxBump - first)]
    else [RxData(c.rxbHead, rxBump)]
  }

  /** The receive side of event_arx_connupdate. */
  function RxUpdate(c: Conn, rxBump: nat): Conn {
    if rxBump == 0 then c
    else c.(rxbHead := Bump(c.rxbHead, rxBump, c.rxbLen), rxbUsed := c.rxbUsed + rxBump)
  }

  /** The transmit side of event_arx_connupdate: freed space, a postponed end of stream, and the
      acknowledgement of the end of stream. */
  function TxUpdate(c: Conn, txBump: nat): (Conn, seq<Event>)
    requires ConnValid(c) && c.status.Open? && txBump <= c.txbSent
  {
    if txBump == 0 then (c, [])
    else
      var sendbuf := if AllocBytes(c) == 0 then [SendBuf] else [];
      var c1 := c.(txbSent := c.txbSent - txBump);
      if c.txEos && !c.txEosAlloc then (PushTxEos(c1).0, sendbuf)
      else if c.txEosAlloc && c1.txbSent == 0 then (c1.(txEosAck := true), sendbuf + [TxClosed])
      else (c1, sendbuf)
  }

  /** How many events event_arx_connupdate makes room for. */
  function EventsNeeded(c: Conn, m: Update): nat
    requires ConnValid(c) && c.status.Open? && m.txBump <= c.txbSent
  {
    (if m.rxBump == 0 then 0 else if c.rxbHead + m.rxBump > c.rxbLen then 2 else 1)
    + (if m.txBump > 0 && AllocBytes(c) == 0 then 1 else 0)
    + (if c.txEosAlloc && c.txbSent - m.txBump == 0 then 1 else 0)
    + (if m.fin then 1 else 0)
  }

  /** The events an update of an open connection raises. */
  function Raised(c: Conn, m: Update): seq<Event>
    requires ConnValid(c) && c.status.Open? && UpdateValid(c, m)
  {
    RxEvents(c, m.rxBump) + TxUpdate(RxUpdate(c, m.rxBump), m.txBump).1 + if m.fin then [RxClosed] else []
  }

  /** The end of the own stream was acknowledged before, and the update acknowledges nothing more. */
  predicate LongClosed(c: Conn, m: Update) {
    c.txEosAlloc && c.txbSent == 0 && m.txBump == 0
  }

  /** Room is made for exactly the events raised, except that a connection whose own stream has long been
      closed is given room for a TXCLOSED that is not raised again. */
  lemma NeededIsRaised(c: Conn, m: Update)
    requires ConnValid(c) && c.status.Open? && UpdateValid(c, m)
    ensures EventsNeeded(c, m) == |Raised(c, m)| + if LongClosed(c, m) then 1 else 0
    ensures EventsNeeded(c, m) == |Raised(c, m)| <==> !LongClosed(c, m)
  {
  }

  /** event_arx_connupdate; Retry leaves the update in the ring when the events do not fit. */
  function ConnUpdate(c: Conn, m: Update, outn: nat): UpdateResult
    requires ConnValid(c) && UpdateValid(c, m)
  {
    if c.status.OpenRequested? then
      Updated(c.(rxClosed := m.fin, rxbHead := c.rxbHead + m.rxBump, rxbUsed := c.rxbUsed + m.rxBump), [])
    else if c.status.Closing? then Updated(c, [])
    else if EventsNeeded(c, m) > outn then Retry
    else
      var (c2, evs) := TxUpdate(RxUpdate(c, m.rxBump), m.txBump);
      Updated(c2.(rxClosed := c2.rxClosed || m.fin),
              RxEvents(c, m.rxBump) + evs + if m.fin then [RxClosed] else [])
  }

  /** An update is taken exactly when the events it raises fit the array, with one exception: on a connection
      whose own stream has long been closed, one more slot must be free. */
  lemma TakenIffFits(c: Conn, m: Update, outn: nat)
    requires ConnValid(c) && c.status.Open? && UpdateValid(c, m)
    ensures ConnUpdate(c, m, outn).Updated? <==> |Raised(c, m)| + (if LongClosed(c, m) then 1 else 0) <= outn
    ensures ConnUpdate(c, m, outn).Updated? ==> ConnUpdate(c, m, outn).events == Raised(c, m)
  {
    NeededIsRaised(c, m);
  }

  /** The exception met: our end of stream was acknowledged, one byte comes in, and the application polls
      with room for one event.  One event would do, yet the update stays in the ring. */
  lemma PollForOneStarves()
    ensures var c := Conn(Open, 4, 0, 0, 0, 4, 1, 0, 0, 0, 1, false, true, true, true, false);
      var m := Update(1, 0, false);
      && ConnValid(c) && UpdateValid(c, m)
      && Raised(c, m) == [RxData(0, 1)] && ConnUpdate(c, m, 1) == Retry
  {
  }

  /** The connection after an update, leaving aside a postponed end of stream. */
  function TakenConn(c: Conn, m: Update): Conn
    requires UpdateValid(c, m)
  {
    if c.status.OpenRequested? then
      c.(rxClosed := m.fin, rxbHead := c.rxbHead + m.rxBump, rxbUsed := c.rxbUsed + m.rxBump)
    else if c.status.Closing? then c
    else
      RxUpdate(c, m.rxBump).(txbSent := c.txbSent - m.txBump, rxClosed := c.rxClosed || m.fin,
        txEosAck := c.txEosAck || (m.txBump > 0 && c.txEosAlloc && c.txbSent == m.txBump))
  }

  predicate Postponed(c: Conn, m: Update) {
    c.status.Open? && m.txBump > 0 && c.txEos && !c.txEosAlloc
  }

  /** event_arx_connupdate is that update, followed by pushing out a postponed end of stream; the
      push always finds room, so the source's abort is unreachable.  TXCLOSED is raised exactly
      when the update acknowledges the last byte of a closed stream. */
  lemma UpdateIsTaken(c: Conn, m: Update, outn: nat)
    requires ConnValid(c) && UpdateValid(c, m)
    ensures ConnValid(TakenConn(c, m)) && (Postponed(c, m) ==> AllocBytes(TakenConn(c, m)) > 0)
    ensures var r := ConnUpdate(c, m, outn);
      && (r.Updated? ==> r.conn == if Postponed(c, m) then PushTxEos(TakenConn(c, m)).0 else TakenConn(c, m))
      && (r.Updated? ==> (TxClosed in r.events <==>
                          c.status.Open? && c.txEosAlloc && m.txBump > 0 && m.txBump == c.txbSent))
  {
    hide EventsNeeded, RxEvents, Bump, TxUpdate, PushTxEos, ConnValid;
    TakenValid(c, m);
    if c.status.Open? {
      TxTaken(c, m);
      RxEventsKind(c, m.rxBump);
    }
  }

  /** The receive part, then the transmit part. */
  lemma TxTaken(c: Conn, m: Update)
    requires ConnValid(c) && c.status.Open? && UpdateValid(c, m)
    ensures c.rxbHead <= c.rxbLen && ConnValid(RxUpdate(c, m.rxBump)) && ConnValid(TakenConn(c, m))
    ensures var (c2, evs) := TxUpdate(RxUpdate(c, m.rxBump), m.txBump);
      && c2.(rxClosed := c2.rxClosed || m.fin) == (if Postponed(c, m) then PushTxEos(TakenConn(c, m)).0 else TakenConn(c, m))
      && (TxClosed in evs <==> m.txBump > 0 && c.txEosAlloc && c.txbSent == m.txBump)
  {
    hide Bump, PushTxEos;
    RxTaken(c, m.rxBump);
    var c1 := RxUpdate(c, m.rxBump).(txbSent := c.txbSent - m.txBump);
    if Postponed(c, m) {
      PushKeeps(c1, m.fin);
    }
  }

  lemma RxTaken(c: Conn, rxBump: nat)
    requires ConnValid(c) && c.status.Open? && c.rxbUsed + rxBump <= c.rxbLen
    ensures var c1 := RxUpdate(c, rxBump);
      ConnValid(c1) && c1 == c.(rxbHead := c1.rxbHead, rxbUsed := c.rxbUsed + rxBump)
  {
  }

  lemma PushKeeps(c: Conn, fin: bool)
    requires ConnValid(c) && c.status.Open? && c.txEos
    ensures var c1 := PushTxEos(c).0;
      c1.(rxClosed := c1.rxClosed || fin) == PushTxEos(c.(rxClosed := c.rxClosed || fin)).0
  {
  }

  lemma TakenValid(c: Conn, m: Update)
    requires ConnValid(c) && UpdateValid(c, m)
    ensures ConnValid(TakenConn(c, m)) && (Postponed(c, m) ==> AllocBytes(TakenConn(c, m)) > 0)
  {
  }

  lemma RxEventsKind(c: Conn, rxBump: nat)
    requires c.rxbHead <= c.rxbLen
    ensures forall e <- RxEvents(c, rxBump) :: e.RxData?
  {
  }

  /** How often an event is raised. */
  function Times(evs: seq<Event>, e: Event): nat {
    multiset(evs)[e]
  }

  /** Which events an update raises, each at most once: SENDBUF exactly if it frees space in a full transmit
      buffer, TXCLOSED exactly if it acknowledges the last byte of a closed stream, RXCLOSED exactly if it carries the
      end of the remote stream; and only on an open connection. */
  lemma EventsExact(c: Conn, m: Update, outn: nat)
    requires ConnValid(c) && UpdateValid(c, m) && ConnUpdate(c, m, outn).Updated?
    ensures var evs := ConnUpdate(c, m, outn).events;
      && Times(evs, SendBuf) == (if c.status.Open? && m.txBump > 0 && c.txbSent + c.txbAllocated == c.txbLen then 1 else 0)
      && Times(evs, TxClosed) == (if c.status.Open? && m.txBump > 0 && c.txEosAlloc && m.txBump == c.txbSent then 1 else 0)
      && Times(evs, RxClosed) == (if c.status.Open? && m.fin then 1 else 0)
      && forall e <- evs :: e.RxData? || e.SendBuf? || e.TxClosed? || e.RxClosed?
  {
    hide PushTxEos, TxUpdate, RxEvents, Bump, EventsNeeded, ConnValid;
    if c.status.Open? {
      HeadIn(c);
      RxTaken(c, m.rxBump);
      var rx, tx := RxEvents(c, m.rxBump), TxUpdate(RxUpdate(c, m.rxBump), m.txBump).1;
      RxEventsKind(c, m.rxBump);
      OnlyData(rx);
      TxEventsExact(RxUpdate(c, m.rxBump), m.txBump);
      var end := if m.fin then [RxClosed] else [];
      assert multiset(rx + tx + end) == multiset(rx) + multiset(tx) + multiset(end);
      assert Times(end, RxClosed) == |end| && Times(end, SendBuf) == Times(end, TxClosed) == 0;
    }
  }

  lemma HeadIn(c: Conn)
    requires ConnValid(c) && c.status.Open?
    ensures c.rxbHead <= c.rxbLen
  {
  }

  lemma OnlyData(evs: seq<Event>)
    requires forall e <- evs :: e.RxData?
    ensures Times(evs, SendBuf) == Times(evs, TxClosed) == Times(evs, RxClosed) == 0
  {
    assert SendBuf !in evs && TxClosed !in evs && RxClosed !in evs;
  }

  lemma TxEventsExact(c: Conn, txBump: nat)
    requires ConnValid(c) && c.status.Open? && txBump <= c.txbSent
    ensures var evs := TxUpdate(c, txBump).1;
      && Times(evs, SendBuf) == (if txBump > 0 && c.txbSent + c.txbAllocated == c.txbLen then 1 else 0)
      && Times(evs, TxClosed) == (if txBump > 0 && c.txEosAlloc && txBump == c.txbSent then 1 else 0)
      && Times(evs, RxClosed) == 0 && forall e <- evs :: e.SendBuf? || e.TxClosed?
  {
    hide PushTxEos, Times, Bump;
    FewEvents();
    assert [] + [TxClosed] == [TxClosed];
  }

  lemma FewEvents()
    ensures forall e :: Times([], e) == 0
    ensures Times([SendBuf], SendBuf) == 1 && Times([SendBuf], TxClosed) == Times([SendBuf], RxClosed) == 0
    ensures Times([TxClosed], TxClosed) == 1 && Times([TxClosed], SendBuf) == Times([TxClosed], RxClosed) == 0
    ensures var both := [SendBuf] + [TxClosed];
      Times(both, SendBuf) == Times(both, TxClosed) == 1 && Times(both, RxClosed) == 0
  {
    assert multiset([SendBuf]) == multiset{SendBuf} && multiset([TxClosed]) == multiset{TxClosed};
    assert multiset([SendBuf] + [TxClosed]) == multiset{SendBuf, TxClosed};
  }

  /** The event array is never overrun. */
  lemma UpdateFits(c: Conn, m: Update, outn: nat)
    requires ConnValid(c) && UpdateValid(c, m)
    ensures var r := ConnUpdate(c, m, outn);
      r.Updated? ==> |r.events| <= outn
  {
  }

  /** event_kappin_conn_opened: buffers become known, and what arrived before is announced now; or the open
      failed. */
  function ConnOpened(c: Conn, ok: bool, rxLen: nat, txLen: nat, outn: nat): UpdateResult {
    if !ok then Updated(c.(status := Closing), [ConnOpen(false)])
    else if c.rxbUsed > 0 && c.rxClosed && outn < 3 then Retry
    else if (c.rxbUsed > 0 || c.rxClosed) && outn < 2 then Retry
    else
      Updated(c.(status := Open, rxbLen := rxLen, txbLen := txLen),
              [ConnOpen(true)] + (if c.rxbUsed > 0 then [RxData(0, c.rxbUsed)] else [])
              + if c.rxClosed then [RxClosed] else [])
  }

  /** The events never overrun an array of at least one; what arrived before is announced and so is the end of the
      stream, each exactly if it did; a failed open raises the failure alone; and it is postponed exactly for lack of
      room. */
  lemma OpenedExact(c: Conn, ok: bool, rxLen: nat, txLen: nat, outn: nat)
    requires outn > 0
    ensures var r := ConnOpened(c, ok, rxLen, txLen, outn);
      && (r.Retry? <==> ok && 1 + (if c.rxbUsed > 0 then 1 else 0) + (if c.rxClosed then 1 else 0) > outn)
      && (r.Updated? ==>
        && |r.events| <= outn && r.events[0] == ConnOpen(ok) && ConnOpen(ok) !in r.events[1..]
        && (r.conn.status.Open? <==> ok) && (!ok ==> |r.events| == 1)
        && (ok ==> (RxClosed in r.events <==> c.rxClosed))
        && (ok ==> forall off, len :: RxData(off, len) in r.events <==> off == 0 && len == c.rxbUsed > 0))
  {
  }
}
