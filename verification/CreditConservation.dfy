/** Every step of a connection keeps its invariant: credit conservation, positions, sequence
    numbers, end of stream, and the contents of both buffers. */
module CreditConservation {
  import opened Arith
  import opened Circular
  import opened TcpCommon
  import opened FlowReceive
  import opened ReceiveReliability
  import opened ReceiveRuns
  import opened FlowTransmit
  import opened TransmitReliability
  import opened FlowState
  import opened LibConn
  import opened Connection

  lemma HoldsSub(b: seq<Byte>, s: seq<Byte>, lo: int, hi: int, lo': int, hi': int)
    requires Holds(b, s, lo, hi) && lo <= lo' <= hi' <= hi
    ensures Holds(b, s, lo', hi')
  {
  }

  // ---- Fast path: packets -------------------------------------------------------------

  lemma ArriveFlow(e: Env, x: World, seg: Segment, o: nat)
    requires FlowInv(e, x) && Arrivable(x.flow.rx, x.a, e.s, e.isn, seg, o)
    ensures FlowInv(e, ArriveStep(e, x, seg, o))
  {
    hide U32, Cell, Holds, Receive, ProcessAck, IdealReceive, TrimHole, AckOffset, Sendable, Read;
    if !Packet(x.flow, seg).toKernel {
      AckRefines(x.flow.tx, x.w, x.t, e.iss, seg);
      var tx := ProcessAck(x.flow.tx, seg).tx;
      var w := WindowAfter(x, e, seg);
      AckKeepsBuffer(x.flow.tx, seg);
      HoldsSub(tx.buf, x.t, x.w.una, |x.t|, w.una, |x.t|);
      if !ProcessAck(x.flow.tx, seg).reset {
        var a := IdealReceive(x.a, o, |seg.payload|, seg.fin);
        ReceiveRefines(x.flow.rx, x.a, e.s, e.isn, seg, o);
        RefinesValid(Receive(x.flow.rx, seg).rx, a, e.s, e.isn);
      }
    }
  }

  lemma AckKeepsBuffer(tx: Tx, seg: Segment)
    requires TxValid(tx) && SegmentValid(seg)
    ensures ProcessAck(tx, seg).tx.buf == tx.buf && ProcessAck(tx, seg).tx.len == tx.len
  {
  }

  /** What a packet may change, seen from the bookkeeping: credit moves into the queue to the
      library, byte for byte. */
  predicate Announced(x: World, x': World) {
    && x'.conn == x.conn && x'.atx == x.atx && x'.t == x.t
    && x'.flow.bumpSeq == x.flow.bumpSeq && x'.flow.rx.len == x.flow.rx.len && x'.flow.tx.len == x.flow.tx.len
    && x'.w.tail == x.w.tail && x'.w.fin == x.w.fin && (x.a.fin ==> x'.a.fin)
    && x'.a.n + x'.a.avail == x.a.n + x.a.avail
    && x.a.n <= x'.a.n && x.w.una <= x'.w.una
    && var d := Update(x'.a.n - x.a.n, x'.w.una - x.w.una, !x.a.fin && x'.a.fin);
      x'.arx == if d == Update(0, 0, false) then x.arx else x.arx + [d]
  }

  lemma ArriveAnnounces(e: Env, x: World, seg: Segment, o: nat)
    requires FlowInv(e, x) && Arrivable(x.flow.rx, x.a, e.s, e.isn, seg, o)
    ensures Announced(x, ArriveStep(e, x, seg, o))
  {
    hide U32, Cell, Holds, Receive, ProcessAck, IdealReceive, TrimHole, AckOffset, Sendable, Read;
    if !Packet(x.flow, seg).toKernel {
      AckRefines(x.flow.tx, x.w, x.t, e.iss, seg);
      AckKeepsBuffer(x.flow.tx, seg);
      if !ProcessAck(x.flow.tx, seg).reset {
        ReceiveRefines(x.flow.rx, x.a, e.s, e.isn, seg, o);
        IdealSound(x.a, o, |seg.payload|, seg.fin);
      }
    }
  }

  /** What the peer offers: the window of the last segment that was in order is the one that counts; a packet for the slow
      path, a segment out of order and the acknowledgement that causes a rewind leave it alone. */
  lemma ArriveWindow(e: Env, x: World, seg: Segment, o: nat)
    requires FlowInv(e, x) && Arrivable(x.flow.rx, x.a, e.s, e.isn, seg, o)
    ensures var x', m := ArriveStep(e, x, seg, o), Expected(x.a);
      var slow, again := x.flow.slow || seg.odd || seg.syn, ProcessAck(x.flow.tx, seg).reset;
      && x'.flow.tx.remoteAvail
         == (if !slow && !again && o <= m <= o + |seg.payload| then seg.wnd else x.flow.tx.remoteAvail)
      && Packet(x.flow, seg).toKernel == slow && x'.flow.slow == (x.flow.slow || (seg.odd && !seg.syn))
      && (slow ==> x' == x.(flow := x.flow.(slow := x'.flow.slow)))
      && (Packet(x.flow, seg).reply ==> !slow && !again)
  {
    hide U32, Cell, Holds, Receive, ProcessAck, IdealReceive, TrimHole, AckOffset, Sendable, Read;
    AckRefines(x.flow.tx, x.w, x.t, e.iss, seg);
    Answered(x.flow.rx, x.a, e.s, e.isn, seg, o);
  }

  /** The update names the place in the buffer where the announced bytes are. */
  lemma ArriveNames(e: Env, x: World, seg: Segment, o: nat)
    requires FlowInv(e, x) && Arrivable(x.flow.rx, x.a, e.s, e.isn, seg, o)
    ensures var x', r := ArriveStep(e, x, seg, o), Packet(x.flow, seg);
      && r.rxPos < |x'.flow.rx.buf| && r.rxBump <= |x'.flow.rx.buf| && x.a.n <= x'.a.n <= |e.s|
      && Read(x'.flow.rx.buf, r.rxPos, r.rxBump) == e.s[x.a.n..x'.a.n]
  {
    hide U32, Cell, Holds, Receive, ProcessAck, IdealReceive, TrimHole, AckOffset, Sendable, Read;
    AckRefines(x.flow.tx, x.w, x.t, e.iss, seg);
    ReceiveRefines(x.flow.rx, x.a, e.s, e.isn, seg, o);
    NothingFollows(x.flow.rx, x.a, Received(x.flow.rx, 0, false, false, false), e.s, e.isn);
  }

  lemma AnnouncedInv(e: Env, x: World, x': World)
    requires Base(e, x) && FlowInv(e, x') && Announced(x, x')
    ensures Base(e, x')
  {
    hide U32, Cell, Holds, RxValid, ToFastPath, ToLibrary, Ends;
    ToLibraryAppend(x.arx, Update(x'.a.n - x.a.n, x'.w.una - x.w.una, !x.a.fin && x'.a.fin));
    EndsAppend(x.arx, Update(x'.a.n - x.a.n, x'.w.una - x.w.una, !x.a.fin && x'.a.fin));
  }

  lemma ArriveInv(e: Env, x: World, seg: Segment, o: nat)
    requires Base(e, x) && Arrivable(x.flow.rx, x.a, e.s, e.isn, seg, o)
    ensures Base(e, ArriveStep(e, x, seg, o))
  {
    hide *;
    InvFlow(e, x);
    ArriveFlow(e, x, seg, o);
    ArriveAnnounces(e, x, seg, o);
    AnnouncedInv(e, x, ArriveStep(e, x, seg, o));
  }

  lemma InvFlow(e: Env, x: World)
    requires Base(e, x)
    ensures FlowInv(e, x)
  {
  }

  // ---- Fast path: sending, retransmission, bumps -----------------------------------------

  lemma SendInv(e: Env, x: World)
    requires Base(e, x)
    ensures Base(e, SendStep(x).0)
  {
    hide U32, Cell, Holds, Sendable, Read, ToLibrary, ToFastPath, Refines;
    SendRefines(x.flow.tx, x.w, x.t, e.iss);
    if Send(x.flow.tx).Sending? {
      TxRefinesValid(Send(x.flow.tx).tx, SendStep(x).0.w, x.t, e.iss);
    }
  }

  lemma RetransmitInv(e: Env, x: World)
    requires Base(e, x)
    ensures Base(e, RetransmitStep(x))
  {
    hide U32, Cell, Holds, ToLibrary, ToFastPath, Refines;
    ResetRefines(x.flow.tx, x.w, x.t, e.iss);
    TxRefinesValid(ResetRetransmit(x.flow.tx), x.w.(nxt := x.w.una), x.t, e.iss);
  }

  /** No bump from the library is ever refused. */
  lemma BumpNeverRefused(e: Env, x: World)
    requires Inv(e, x) && |x.atx| > 0
    ensures HandleBump(x.flow, x.atx[0]).accepted
    ensures var m, r := x.atx[0], HandleBump(x.flow, x.atx[0]);
      && r.flow.rx == x.flow.rx.(avail := x.flow.rx.avail + m.rxBump)
      && r.flow.tx == x.flow.tx.(avail := x.flow.tx.avail + m.txBump, fin := x.flow.tx.fin || m.done)
      && r.flow.bumpSeq == m.seqno
  {
    hide U32, Cell, Holds, Refines, ToLibrary;
    var m, c := x.atx[0], x.conn;
    assert x.atx[..1] == [m];
    assert ToFastPath([m]) == Amount(m.rxBump, m.txBump);
    assert UpTo(x.atx, 0) == m.txBump;
    if c.bumpSeq > |x.atx| {
      NextNotStale(x.flow.bumpSeq);
    }
    BumpAccepted(x.flow, m);
  }

  lemma BumpFlow(e: Env, x: World)
    requires Inv(e, x) && |x.atx| > 0
    ensures FlowInv(e, BumpStep(x).0)
  {
    hide U32, Cell, HandleBump, ToLibrary, Holds;
    BumpNeverRefused(e, x);
    var x', m := BumpStep(x).0, x.atx[0];
    ReleaseRefines(x.flow.rx, x.a, e.s, e.isn, m.rxBump);
    HoldsSub(x.flow.tx.buf, x.t, x.w.una, |x.t|, x.w.una, x'.w.tail);
    TxRefinesValid(x'.flow.tx, x'.w, x.t, e.iss);
  }

  /** Returned receive space widens the window and nothing else. */
  lemma ReleaseRefines(rx: Rx, a: Ideal, s: seq<Byte>, isn: nat, k: nat)
    requires Refines(rx, a, s, isn) && k <= rx.len - rx.avail
    ensures Refines(rx.(avail := rx.avail + k), a.(avail := a.avail + k), s, isn)
    ensures RxValid(rx.(avail := rx.avail + k))
  {
    hide U32, Cell;
    RefinesValid(rx.(avail := rx.avail + k), a.(avail := a.avail + k), s, isn);
  }

  /** The next bump leaves the queue. */
  predicate Taken(x: World, x': World) {
    && |x.atx| > 0 && x'.atx == x.atx[1..] && x'.conn == x.conn && x'.arx == x.arx && x'.t == x.t
    && var m := x.atx[0];
      && x'.flow.rx.len == x.flow.rx.len && x'.flow.tx.len == x.flow.tx.len
      && x'.flow.rx.avail == x.flow.rx.avail + m.rxBump
      && x'.flow.tx.avail == x.flow.tx.avail + m.txBump && x'.flow.tx.sent == x.flow.tx.sent
      && x'.flow.bumpSeq == m.seqno
      && x'.a.n == x.a.n && x'.a.fin == x.a.fin
      && x'.w.tail == x.w.tail + m.txBump && x'.w.fin == (x.w.fin || m.done)
  }

  lemma TakenBooks(x: World, x': World)
    requires Taken(x, x') && CreditInv(x) && HeadInv(x) && SeqInv(x)
    ensures CreditInv(x') && HeadInv(x') && SeqInv(x')
  {
    hide U16, Cell, ToLibrary;
    assert x.conn.bumpSeq - |x'.atx| - 1 == x.conn.bumpSeq - |x.atx| + 0;
    forall i | 0 <= i < |x'.atx|
      ensures x'.atx[i].seqno == U16(x'.conn.bumpSeq - |x'.atx| + i)
    {
      assert x'.atx[i] == x.atx[i + 1];
    }
  }

  lemma TakenFin(x: World, x': World)
    requires Taken(x, x') && CreditInv(x) && FinInv(x)
    ensures FinInv(x')
  {
    hide Cell, ToLibrary, ConnValid;
    var m := x.atx[0];
    assert x.atx[..1] == [m];
    assert UpTo(x.atx, 0) == ToFastPath([m]).tx == m.txBump;
    forall i | 0 <= i < |x'.atx|
      ensures UpTo(x.atx, i + 1) == m.txBump + UpTo(x'.atx, i)
      ensures x'.atx[i] == x.atx[i + 1]
    {
      assert x.atx[..i + 2][1..] == x'.atx[..i + 1];
    }
  }

  lemma BumpInv(e: Env, x: World)
    requires Inv(e, x) && |x.atx| > 0
    ensures Base(e, BumpStep(x).0)
  {
    hide U32, Cell, HandleBump, Holds, FlowInv, CreditInv, HeadInv, SeqInv, FinInv;
    BumpFlow(e, x);
    BumpNeverRefused(e, x);
    TakenBooks(x, BumpStep(x).0);
    TakenFin(x, BumpStep(x).0);
  }

  // ---- Library ----------------------------------------------------------------------------

  /** Prefixes of the queue carry no more than the whole queue. */
  lemma {:induction false} PrefixAmount(ms: seq<AppBump>, k: nat)
    requires k <= |ms|
    ensures ToFastPath(ms[..k]).tx <= ToFastPath(ms).tx
    decreases |ms|
  {
    if k > 0 {
      PrefixAmount(ms[1..], k - 1);
      assert ms[..k][1..] == ms[1..][..k - 1];
    }
  }

  lemma PrefixAmounts(ms: seq<AppBump>)
    ensures forall i :: 0 <= i < |ms| ==> UpTo(ms, i) <= ToFastPath(ms).tx
  {
    forall i | 0 <= i < |ms|
      ensures UpTo(ms, i) <= ToFastPath(ms).tx
    {
      PrefixAmount(ms, i + 1);
    }
  }

  /** n more bytes of the transmit buffer become part of the application's stream. */
  lemma CommitFlow(e: Env, x: World, n: nat)
    requires FlowInv(e, x) && CreditInv(x) && HeadInv(x) && x.conn.status.Open?
    requires x.conn.txbSent + n <= x.conn.txbLen
    ensures FlowInv(e, x.(t := x.t + Committed(x, n)))
    ensures Bump(x.conn.txbHead, n, x.conn.txbLen) == Cell(|x.t| + n, x.conn.txbLen)
  {
    hide U32, Cell, RxValid, Refines, ToFastPath, ToLibrary, Holds, Read;
    var t', len := x.t + Committed(x, n), x.conn.txbLen;
    CellBump(|x.t|, n, len);
    HoldsMore(x.flow.tx.buf, x.t, x.w.una, n);
    HoldsSub(x.flow.tx.buf, t', x.w.una, |t'|, x.w.una, x.w.tail);
  }

  /** A buffer holds what is read from it behind what it holds. */
  lemma HoldsMore(buf: seq<Byte>, t: seq<Byte>, lo: nat, n: nat)
    requires Holds(buf, t, lo, |t|) && n <= |buf|
    ensures var t' := t + Read(buf, Cell(|t|, |buf|), n);
      Holds(buf, t', lo, |t'|)
  {
    hide Cell;
    var t', len := t + Read(buf, Cell(|t|, |buf|), n), |buf|;
    forall j | lo <= j < |t'|
      ensures buf[Cell(j, len)] == t'[j]
    {
      if j >= |t| {
        CellBump(|t|, j - |t|, len);
        ReadAt(buf, Cell(|t|, len), n, j - |t|);
      } else {
        assert buf[Cell(j, len)] == t[j];
      }
    }
  }

  ghost function PushStep(x: World): World
    requires ConnValid(x.conn) && x.conn.status.Open? && x.conn.txEos
    requires x.conn.txbHead < |x.flow.tx.buf|
  {
    x.(conn := PushTxEos(x.conn).0, t := x.t + Committed(x, 1))
  }

  /** Pushing out the dummy byte when there is room for it. */
  lemma PushInv(e: Env, x: World)
    requires CoreInv(e, x) && x.conn.status.Open? && x.conn.txEos && !x.conn.txEosAlloc
    requires AllocBytes(x.conn) > 0
    ensures Base(e, PushStep(x))
  {
    hide U32, Cell, FlowInv, ToFastPath, ToLibrary;
    assert FlowInv(e, x) && x.conn.txbHead < |x.flow.tx.buf| by { HeadInBuffer(e, x); }
    CommitFlow(e, x, 1);
    var x' := PushStep(x);
    FlowIgnoresConn(e, x.(t := x.t + Committed(x, 1)), x'.conn);
    PrefixAmounts(x.atx);
  }

  lemma HeadInBuffer(e: Env, x: World)
    requires CoreInv(e, x)
    ensures x.conn.txbHead < |x.flow.tx.buf|
  {
  }

  lemma FlowIgnoresConn(e: Env, x: World, c: Conn)
    requires FlowInv(e, x)
    ensures FlowInv(e, x.(conn := c))
  {
  }

  /** The next update is one the library can take: it frees no more than was sent, announces no
      more than fits, frees nothing before the connection is open, and nothing after the end of
      stream was acknowledged. */
  lemma UpdateReady(e: Env, x: World)
    requires CoreInv(e, x) && |x.arx| > 0
    ensures ConnValid(x.conn) && UpdateValid(x.conn, x.arx[0]) && x.conn.txbHead < |x.flow.tx.buf|
    ensures x.conn.status.OpenRequested? || x.conn.txEosAck ==> x.arx[0].txBump == 0
  {
    hide U32, Cell, Refines, TxRefines, Holds, ToFastPath;
    HeadInBuffer(e, x);
  }

  /** The update without a postponed end of stream. */
  ghost function TakeStep(x: World): World
    requires |x.arx| > 0 && UpdateValid(x.conn, x.arx[0])
  {
    x.(arx := x.arx[1..], conn := TakenConn(x.conn, x.arx[0]))
  }

  lemma TakeInv(e: Env, x: World)
    requires CoreInv(e, x) && |x.arx| > 0
    requires ConnValid(x.conn) && UpdateValid(x.conn, x.arx[0])
    ensures CoreInv(e, TakeStep(x))
  {
    hide U32, Cell, FlowInv, CreditInv, HeadInv, SeqInv, FinInv, EndInv;
    FlowIgnoresQueue(e, x, TakeStep(x).conn, TakeStep(x).arx);
    TakeBooks(x);
    TakeHead(x);
    TakeMarks(x);
    assert x.conn.status != Closing by { NotClosing(x); }
    TakeEnd(x);
  }

  lemma NotClosing(x: World)
    requires HeadInv(x)
    ensures x.conn.status != Closing
  {
  }

  lemma TakeBooks(x: World)
    requires CreditInv(x) && HeadInv(x) && |x.arx| > 0 && UpdateValid(x.conn, x.arx[0])
    ensures CreditInv(TakeStep(x))
  {
    hide Cell, ToFastPath, Bump, ConnValid;
    TakenValid(x.conn, x.arx[0]);
  }

  lemma TakeHead(x: World)
    requires HeadInv(x) && ConnValid(x.conn) && |x.arx| > 0 && UpdateValid(x.conn, x.arx[0])
    ensures HeadInv(TakeStep(x))
  {
    hide Cell, Bump;
    var m := x.arx[0];
    if x.conn.status.Open? {
      BumpCell(x.conn.rxbHead, Notified(x), m.rxBump, x.conn.rxbLen);
      BumpCell(x.conn.rxbHead, Notified(x), 0, x.conn.rxbLen);
    }
  }

  lemma TakeMarks(x: World)
    requires HeadInv(x) && ConnValid(x.conn) && SeqInv(x) && FinInv(x) && |x.arx| > 0 && UpdateValid(x.conn, x.arx[0])
    ensures SeqInv(TakeStep(x)) && FinInv(TakeStep(x))
  {
    hide Cell, ToFastPath, ToLibrary, Bump, U16;
  }

  lemma TakeEnd(x: World)
    requires EndInv(x) && x.conn.status != Closing && |x.arx| > 0 && UpdateValid(x.conn, x.arx[0])
    ensures EndInv(TakeStep(x))
  {
    hide Bump;
    EndsLast(x.arx[1..]);
  }

  lemma {:induction false} EndsLast(ms: seq<Update>)
    ensures |ms| > 0 && ms[|ms| - 1].fin ==> Ends(ms) > 0
  {
    if |ms| > 1 {
      EndsLast(ms[1..]);
      assert ms[1..][|ms| - 2] == ms[|ms| - 1];
    }
  }

  /** Advancing a receive position, which may have been left at the very end of the buffer. */
  lemma BumpCell(head: nat, n: nat, d: nat, len: nat)
    requires 0 < len && head <= len && d <= len && Cell(head, len) == Cell(n, len)
    ensures Bump(head, d, len) <= len && Cell(Bump(head, d, len), len) == Cell(n + d, len)
  {
    CellAbsorb(head, d, len);
    CellAbsorb(n, d, len);
  }

  lemma FlowIgnoresQueue(e: Env, x: World, c: Conn, arx: seq<Update>)
    requires FlowInv(e, x)
    ensures FlowInv(e, x.(conn := c, arx := arx))
  {
  }

  lemma UpdateInv(e: Env, x: World, outn: nat)
    requires Base(e, x) && |x.arx| > 0
    requires ConnValid(x.conn) && UpdateValid(x.conn, x.arx[0]) && x.conn.txbHead < |x.flow.tx.buf|
    ensures Base(e, UpdateStep(x, outn).0)
  {
    hide CoreInv, Bump, PushTxEos, ConnUpdate, ConnValid, TakenConn;
    UpdateIsTaken(x.conn, x.arx[0], outn);
    TakeInv(e, x);
    TakenKeeps(x.conn, x.arx[0]);
    if Postponed(x.conn, x.arx[0]) {
      PushInv(e, TakeStep(x));
      PushMarks(TakeStep(x).conn);
    }
  }

  lemma TakenKeeps(c: Conn, m: Update)
    requires UpdateValid(c, m)
    ensures var c' := TakenConn(c, m);
      && c'.txEos == c.txEos && c'.txEosAlloc == c.txEosAlloc && c'.status == c.status
      && c'.txbHead == c.txbHead && c'.txbLen == c.txbLen
      && (m.txBump == 0 ==> c'.txbSent == c.txbSent)
      && (!c.status.Open? ==> c'.txbSent == c.txbSent)
  {
  }

  lemma PushMarks(c: Conn)
    requires ConnValid(c) && c.status.Open? && c.txEos && AllocBytes(c) > 0
    ensures PushTxEos(c).0.txEosAlloc
  {
  }

  lemma OpenedInv(e: Env, x: World, outn: nat)
    requires Base(e, x) && x.conn.status.OpenRequested?
    ensures Base(e, OpenedStep(x, outn).0)
  {
    hide U32, Cell, FlowInv, ToFastPath;
    var x' := OpenedStep(x, outn).0;
    FlowIgnoresConn(e, x, x'.conn);
    FlowLens(e, x);
    assert Cell(0, x.flow.tx.len) == 0 by { CellZero(x.flow.tx.len); }
  }

  lemma CellZero(len: nat)
    requires 0 < len
    ensures Cell(0, len) == 0
  {
  }

  lemma FlowLens(e: Env, x: World)
    requires FlowInv(e, x)
    ensures 0 < x.flow.rx.len == |x.flow.rx.buf| && 0 < x.flow.tx.len == |x.flow.tx.buf|
  {
  }

  lemma AllocInv(e: Env, x: World, len: nat)
    requires Base(e, x) && x.conn.status.Open?
    ensures Base(e, x.(conn := TxAlloc2(x.conn, len).0))
  {
    hide U32, Cell, FlowInv, ToFastPath, ToLibrary;
    FlowIgnoresConn(e, x, TxAlloc2(x.conn, len).0);
  }

  /** Writing reserved space never touches a byte that is still unacknowledged. */
  lemma FillInv(e: Env, x: World, d: nat, bytes: seq<Byte>)
    requires Base(e, x) && x.conn.status.Open? && d + |bytes| <= x.conn.txbAllocated
    requires x.conn.txbHead < x.conn.txbLen == |x.flow.tx.buf| && d + |bytes| <= x.conn.txbLen
    ensures Base(e, FillStep(x, d, bytes))
  {
    hide U32, Cell, ToFastPath, ToLibrary, RxValid, Refines, Write;
    var x', len := FillStep(x, d, bytes), x.conn.txbLen;
    var pos := Bump(x.conn.txbHead, d, len);
    CellBump(|x.t|, d, len);
    WriteWritten(x.flow.tx.buf, pos, bytes);
    forall j | x.w.una <= j < |x.t|
      ensures x'.flow.tx.buf[Cell(j, len)] == x.t[j]
    {
      var k := j + len - (|x.t| + d);
      CellBump(|x.t| + d, k, len);
      CellBump(j, len, len);
      assert x.flow.tx.buf[Cell(j, len)] == x.t[j];
    }
  }

  lemma SendBytesInv(e: Env, x: World, len: nat)
    requires Base(e, x) && x.conn.status.Open? && x.conn.txbLen == |x.flow.tx.buf|
    ensures Base(e, SendBytesStep(x, len))
  {
    hide U32, Cell, FlowInv, ToFastPath, ToLibrary;
    if len <= x.conn.txbAllocated {
      CommitFlow(e, x, len);
      FlowIgnoresConn(e, x.(t := x.t + Committed(x, len)), SendBytesStep(x, len).conn);
    }
  }

  lemma CloseInv(e: Env, x: World)
    requires Base(e, x) && x.conn.status.Open? && x.conn.txbLen == |x.flow.tx.buf|
    ensures Base(e, CloseStep(x))
  {
    hide U32, Cell, FlowInv, ToFastPath, ToLibrary;
    if x.conn.txbAllocated == 0 && !x.conn.txEos {
      var x1 := x.(conn := x.conn.(txEos := true));
      FlowIgnoresConn(e, x, x1.conn);
      assert CoreInv(e, x1);
      if AllocBytes(x1.conn) > 0 {
        PushInv(e, x1);
      }
    }
  }

  lemma ReadInv(e: Env, x: World, len: nat)
    requires Base(e, x) && x.conn.status.Open? && len <= x.conn.rxbUsed
    ensures Base(e, x.(conn := RxDone(x.conn, len).0))
  {
    hide U32, Cell, FlowInv, ToFastPath, ToLibrary;
    FlowIgnoresConn(e, x, RxDone(x.conn, len).0);
  }

  /** The application reads the next bytes of the remote stream. */
  lemma ReadIsStream(e: Env, x: World, len: nat)
    requires Base(e, x) && x.conn.status.Open? && len <= x.conn.rxbUsed
    ensures 0 < x.conn.rxbLen == |x.flow.rx.buf| && x.conn.rxbUsed <= x.conn.rxbLen
    ensures 0 <= Consumed(x) && Consumed(x) + len <= |e.s|
    ensures Read(x.flow.rx.buf, UnreadPos(x.conn), len) == e.s[Consumed(x)..Consumed(x) + len]
    ensures Consumed(x.(conn := RxDone(x.conn, len).0)) == Consumed(x) + len
  {
    hide U32, Cell, ToFastPath, ToLibrary, TxRefines, Read;
    var c, n := x.conn, Notified(x);
    CellAbsorb(c.rxbHead, c.rxbLen - c.rxbUsed, c.rxbLen);
    CellAbsorb(n, c.rxbLen - c.rxbUsed, c.rxbLen);
    CellBump(Consumed(x), c.rxbLen, c.rxbLen);
    assert n + (c.rxbLen - c.rxbUsed) == Consumed(x) + c.rxbLen;
    assert Cell(Consumed(x) + c.rxbLen, c.rxbLen) == Cell(Consumed(x), c.rxbLen) by { CellWrap(Consumed(x), c.rxbLen); }
    HoldsSub(x.flow.rx.buf, e.s, x.a.n - (x.flow.rx.len - x.a.avail), x.a.n, Consumed(x), Consumed(x) + len);
    ReadHolds(x.flow.rx.buf, e.s, Consumed(x), len);
  }

  lemma CellWrap(j: nat, len: nat)
    requires 0 < len
    ensures Cell(j + len, len) == Cell(j, len)
  {
  }

  lemma FlushInv(e: Env, x: World)
    requires Base(e, x) && x.conn.status.Open?
    ensures Base(e, FlushStep(x))
  {
    hide U16, Cell, FlowInv, ToFastPath, ToLibrary;
    var x', m := FlushStep(x), Flush(x.conn).1;
    ToFastPathAppend(x.atx, m);
    FlowIgnoresConn(e, x, x'.conn);
    FlowIgnoresAtx(e, x.(conn := x'.conn), x'.atx);
    PrefixAmounts(x.atx);
    forall i | 0 <= i < |x'.atx|
      ensures UpTo(x'.atx, i) == if i < |x.atx| then UpTo(x.atx, i) else ToFastPath(x'.atx).tx
    {
      if i < |x.atx| {
        assert x'.atx[..i + 1] == x.atx[..i + 1];
      } else {
        assert x'.atx[..i + 1] == x'.atx;
      }
    }
  }

  lemma FlowIgnoresAtx(e: Env, x: World, atx: seq<AppBump>)
    requires FlowInv(e, x)
    ensures FlowInv(e, x.(atx := atx))
  {
  }
}
