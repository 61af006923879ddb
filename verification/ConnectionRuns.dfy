/** Safety of a connection over every interleaving of library, fast path, application and network. */
module ConnectionRuns {
  import opened Arith
  import opened Circular
  import opened FlowReceive
  import opened ReceiveReliability
  import opened ReceiveRuns
  import opened FlowTransmit
  import opened TransmitReliability
  import opened FlowState
  import opened LibConn
  import C = Connection
  import opened CreditConservation

  type World = C.World
  type Env = C.Env

  /** The world after a step, and what the step hands to the outside. */
  ghost function Next(e: Env, x: World, st: C.Step): (r: (World, C.Output))
    requires C.Base(e, x) && C.Enabled(e, x, st)
  {
    StepReady(e, x, st);
    match st
    case Arrive(seg, o) => (C.ArriveStep(e, x, seg, o), C.Nothing)
    case SendSegment => C.SendStep(x)
    case Retransmit => (C.RetransmitStep(x), C.Nothing)
    case TakeBump => C.BumpStep(x)
    case TakeUpdate(outn) => C.UpdateStep(x, outn)
    case Opened(outn) => C.OpenedStep(x, outn)
    case Alloc(len) => (x.(conn := TxAlloc2(x.conn, len).0), C.Granted(TxAlloc2(x.conn, len).1))
    case Fill(d, bytes) => (C.FillStep(x, d, bytes), C.Nothing)
    case SendBytes(len) => (C.SendBytesStep(x, len), C.Nothing)
    case Close => (C.CloseStep(x), C.Nothing)
    case ReadBytes(len) => C.ReadStep(x, len)
    case FlushBumps => (C.FlushStep(x), C.Nothing)
  }

  lemma StepReady(e: Env, x: World, st: C.Step)
    requires C.Base(e, x) && C.Enabled(e, x, st)
    ensures C.FlowInv(e, x) && TxValid(x.flow.tx) && ConnValid(x.conn)
    ensures x.conn.txbHead < |x.flow.tx.buf|
    ensures st.TakeUpdate? ==> UpdateValid(x.conn, x.arx[0])
    ensures x.conn.status.Open? ==> x.conn.txbLen == |x.flow.tx.buf| && 0 < x.conn.rxbLen == |x.flow.rx.buf|
    ensures x.conn.status.Open? ==> x.conn.rxbUsed <= x.conn.rxbLen
  {
    hide U32, Cell, C.ToFastPath, C.ToLibrary, C.Enabled;
    HeadInBuffer(e, x);
    if st.TakeUpdate? {
      assert |x.arx| > 0 by { EnabledUpdate(e, x, st); }
      UpdateReady(e, x);
    }
  }

  lemma EnabledUpdate(e: Env, x: World, st: C.Step)
    requires C.Enabled(e, x, st) && st.TakeUpdate?
    ensures |x.arx| > 0
  {
  }

  /** Every step but taking a bump keeps the invariant, whatever the buffer lengths. */
  lemma StepBase(e: Env, x: World, st: C.Step)
    requires C.Base(e, x) && C.Enabled(e, x, st) && !st.TakeBump?
    ensures C.Base(e, Next(e, x, st).0)
  {
    hide C.Base, C.FlowInv, C.ArriveStep, C.SendStep, C.RetransmitStep, C.BumpStep, C.UpdateStep, C.OpenedStep,
         C.FillStep, C.SendBytesStep, C.CloseStep, C.FlushStep, TxAlloc2, RxDone, TxValid;
    StepReady(e, x, st);
    match st
    case Arrive(seg, o) => ArriveInv(e, x, seg, o);
    case SendSegment => SendInv(e, x);
    case Retransmit => RetransmitInv(e, x);
    case TakeUpdate(outn) => UpdateInv(e, x, outn);
    case Opened(outn) => OpenedInv(e, x, outn);
    case Alloc(len) => AllocInv(e, x, len);
    case Fill(d, bytes) => FillInv(e, x, d, bytes);
    case SendBytes(len) => SendBytesInv(e, x, len);
    case Close => CloseInv(e, x);
    case ReadBytes(len) => ReadInv(e, x, len);
    case FlushBumps => FlushInv(e, x);
  }

  /** No step changes a buffer's length. */
  lemma StepLens(e: Env, x: World, st: C.Step)
    requires C.Base(e, x) && C.Enabled(e, x, st)
    ensures var f := Next(e, x, st).0.flow;
      f.rx.len == x.flow.rx.len && f.tx.len == x.flow.tx.len
  {
    hide C.Base, U32, Cell, C.ArriveStep, C.Committed, TxUpdate, Read, Write;
    StepReady(e, x, st);
    if st.Arrive? {
      ArriveAnnounces(e, x, st.seg, st.o);
    }
  }

  /** Every step keeps the invariant. */
  lemma StepInv(e: Env, x: World, st: C.Step)
    requires C.Inv(e, x) && C.Enabled(e, x, st)
    ensures C.Inv(e, Next(e, x, st).0)
  {
    hide C.Base, Next;
    StepLens(e, x, st);
    if st.TakeBump? {
      assert |x.atx| > 0 && Next(e, x, st) == C.BumpStep(x) by { TakesBump(e, x, st); }
      BumpInv(e, x);
    } else {
      StepBase(e, x, st);
    }
  }

  lemma TakesBump(e: Env, x: World, st: C.Step)
    requires C.Base(e, x) && C.Enabled(e, x, st) && st.TakeBump?
    ensures |x.atx| > 0 && Next(e, x, st) == C.BumpStep(x)
  {
    hide C.Base, C.BumpStep;
  }

  lemma InvBase(e: Env, x: World)
    requires C.Inv(e, x)
    ensures C.Base(e, x)
  {
  }

  /** The application was told that the remote stream has ended. */
  predicate Ended(x: World) {
    x.conn.status.Open? && x.conn.rxClosed
  }

  /** The granted space is where the stream goes on behind what is reserved already; it is free; and a second piece, at the
      start of the buffer, exists exactly if the first ends at the end of the buffer and is too short. */
  ghost predicate Placed(x: World, g: Grant)
    requires g.Grant?
  {
    var c, j := x.conn, |x.t| + x.conn.txbAllocated;
    && 0 < c.txbLen && j + g.len <= x.w.una + c.txbLen && g.off1 == Cell(j, c.txbLen)
    && g.len1 <= g.len && g.off1 + g.len1 <= c.txbLen && (g.len1 < g.len ==> g.off1 + g.len1 == c.txbLen)
  }

  /** What the outside sees of a step is right: bumps are never refused; a segment carries exactly
      the application's bytes for its sequence numbers, stays within the window the peer last offered, has FIN
      set exactly when it covers the dummy byte that ends the stream, and never carries that byte; what the application reads is
      the next piece of the remote stream; TXCLOSED is raised once, after the last byte and the
      FIN were acknowledged; RXCLOSED once, after the remote stream was received completely; space granted to the
      application is the part of the buffer for the stream bytes behind those it already has reserved. */
  ghost predicate Right(e: Env, x: World, x': World, out: C.Output) {
    && out != C.Refused
    && (out.Emitted? ==>
      && x.w.nxt < x'.w.nxt <= |x.t|
      && x'.w.nxt <= x.w.una + x.flow.tx.remoteAvail
      && out.out.seqno == U32(e.iss + x.w.nxt)
      && (out.out.fin <==> x.conn.txEosAlloc && x'.w.nxt == |x.t|)
      && out.out.payload == x.t[x.w.nxt..x'.w.nxt - if out.out.fin then 1 else 0])
    && (out.Events? && TxClosed in out.evs ==>
      !x.conn.txEosAck && x'.conn.txEosAlloc && x'.w.una == |x'.t|)
    && (out.Events? && RxClosed in out.evs ==> x.a.fin && x.a.n == |e.s| && !Ended(x))
    && Ended(x') == (Ended(x) || (out.Events? && RxClosed in out.evs))
    && (out.Granted? && out.grant.Grant? ==> Placed(x, out.grant))
    && C.Consumed(x) <= C.Consumed(x') <= |e.s|
    && (if out.Bytes? then 0 <= C.Consumed(x) && out.data == e.s[C.Consumed(x)..C.Consumed(x')]
        else C.Consumed(x') == C.Consumed(x))
    && x'.conn.txEosAck == (x.conn.txEosAck || (out.Events? && TxClosed in out.evs))
  }

  lemma SendRight(e: Env, x: World)
    requires C.Inv(e, x)
    ensures Right(e, x, C.SendStep(x).0, C.SendStep(x).1)
  {
    hide U32, Cell, Holds, Sendable, C.ToLibrary, C.ToFastPath, Read;
    SendRefines(x.flow.tx, x.w, x.t, e.iss);
  }

  lemma UpdateRight(e: Env, x: World, outn: nat)
    requires C.Inv(e, x) && |x.arx| > 0
    requires ConnValid(x.conn) && UpdateValid(x.conn, x.arx[0]) && x.conn.txbHead < |x.flow.tx.buf|
    ensures Right(e, x, C.UpdateStep(x, outn).0, C.UpdateStep(x, outn).1)
  {
    hide U32, Cell, Holds, C.ToFastPath, ConnUpdate, Read, RxEvents, Refines, TxRefines, C.SeqInv, PushTxEos, Bump;
    var m := x.arx[0];
    UpdateIsTaken(x.conn, m, outn);
    UpdateReady(e, x);
    if ConnUpdate(x.conn, m, outn).Updated? {
      EventsExact(x.conn, m, outn);
    }
    EndOnce(x);
    ConsumedBound(e, x);
    FinMeansAll(e, x);
    if Postponed(x.conn, m) {
      PushSide(TakenConn(x.conn, m));
    } else if x.conn.status.Open? && x.conn.txEosAlloc && m.txBump > 0 && m.txBump == x.conn.txbSent {
      LastAcked(e, x);
    }
  }

  lemma FinMeansAll(e: Env, x: World)
    requires C.Inv(e, x)
    ensures x.a.fin ==> x.a.n == |e.s|
  {
  }

  /** Pushing out the end of the stream concerns the transmit side only. */
  lemma PushSide(c: Conn)
    requires ConnValid(c) && c.status.Open? && c.txEos
    ensures var c' := PushTxEos(c).0;
      c'.rxbUsed == c.rxbUsed && c'.txEosAck == c.txEosAck && c'.rxClosed == c.rxClosed && c'.status == c.status
  {
  }

  /** When an update acknowledges the last byte of a closed stream, the whole stream was acknowledged. */
  lemma LastAcked(e: Env, x: World)
    requires C.Inv(e, x) && |x.arx| > 0 && x.conn.txEosAlloc && x.arx[0].txBump == x.conn.txbSent > 0
    ensures !x.conn.txEosAck && x.w.una == |x.t|
  {
    hide U32, Cell, Holds, C.ToFastPath, Refines, C.SeqInv, C.HeadInv;
  }

  /** An update that carries the end of the stream finds it not yet noted. */
  lemma EndOnce(x: World)
    requires C.EndInv(x) && |x.arx| > 0
    ensures x.arx[0].fin ==> x.a.fin && !x.conn.rxClosed
  {
  }

  /** Once the library has taken all updates of an open connection, it has told the application of the end of the remote
      stream exactly if that has been received. */
  lemma EndReported(e: Env, x: World)
    requires C.Inv(e, x) && x.conn.status.Open? && x.arx == []
    ensures Ended(x) <==> x.a.fin
  {
  }

  lemma AllocRight(e: Env, x: World, len: nat)
    requires C.Inv(e, x) && x.conn.status.Open? && ConnValid(x.conn)
    ensures Right(e, x, x.(conn := TxAlloc2(x.conn, len).0), C.Granted(TxAlloc2(x.conn, len).1))
  {
    hide U32, Cell, Holds, C.ToLibrary, C.ToFastPath, TxAlloc2, C.Ends;
    if !x.conn.txEos {
      GrantExact(x.conn, len);
      CellAbsorb(|x.t|, x.conn.txbAllocated, x.conn.txbLen);
    } else {
      GrantNone(x.conn, len);
    }
  }

  lemma GrantNone(c: Conn, len: nat)
    requires ConnValid(c) && c.status.Open? && c.txEos
    ensures TxAlloc2(c, len) == (c, Closed)
  {
  }

  lemma ArriveRight(e: Env, x: World, seg: Segment, o: nat)
    requires C.Inv(e, x) && Arrivable(x.flow.rx, x.a, e.s, e.isn, seg, o)
    ensures Right(e, x, C.ArriveStep(e, x, seg, o), C.Nothing)
  {
    hide U32, Cell, Holds, C.ArriveStep, C.ToLibrary, C.ToFastPath, Arrivable;
    var x' := C.ArriveStep(e, x, seg, o);
    ArriveAnnounces(e, x, seg, o);
    ArriveFlow(e, x, seg, o);
    C.ToLibraryAppend(x.arx, Update(x'.a.n - x.a.n, x'.w.una - x.w.una, !x.a.fin && x'.a.fin));
  }

  /** Steps whose effect the outside does not see. */
  lemma QuietRight(e: Env, x: World, x': World)
    requires C.Inv(e, x) && x'.a.n == x.a.n && x'.arx == x.arx
    requires x'.conn.rxbUsed == x.conn.rxbUsed && x'.conn.txEosAck == x.conn.txEosAck && Ended(x') == Ended(x)
    ensures Right(e, x, x', C.Nothing)
  {
    hide U32, Cell, Holds, C.ToLibrary, C.ToFastPath;
  }

  lemma OpenedRight(e: Env, x: World, outn: nat)
    requires C.Inv(e, x) && x.conn.status.OpenRequested?
    ensures Right(e, x, C.OpenedStep(x, outn).0, C.OpenedStep(x, outn).1)
  {
    hide U32, Cell, Holds, C.ToLibrary, C.ToFastPath;
  }

  lemma ReadRight(e: Env, x: World, len: nat)
    requires C.Inv(e, x) && x.conn.status.Open? && len <= x.conn.rxbUsed
    requires 0 < x.conn.rxbLen == |x.flow.rx.buf| && x.conn.rxbUsed <= x.conn.rxbLen
    ensures Right(e, x, C.ReadStep(x, len).0, C.ReadStep(x, len).1)
  {
    hide U32, Cell, Holds, C.ToLibrary, C.ToFastPath, Read, C.UnreadPos;
    ReadIsStream(e, x, len);
  }

  lemma BumpRight(e: Env, x: World)
    requires C.Inv(e, x) && |x.atx| > 0
    ensures Right(e, x, C.BumpStep(x).0, C.BumpStep(x).1)
  {
    hide C.Inv, HandleBump;
    BumpNeverRefused(e, x);
    QuietRight(e, x, C.BumpStep(x).0);
  }

  /** Every step shows the outside only what is right. */
  lemma StepRight(e: Env, x: World, st: C.Step)
    requires C.Inv(e, x) && C.Enabled(e, x, st)
    ensures Right(e, x, Next(e, x, st).0, Next(e, x, st).1)
  {
    hide C.Inv, C.FlowInv, C.ArriveStep, C.SendStep, C.BumpStep, C.UpdateStep, C.OpenedStep, C.ReadStep,
         HandleBump, TxValid, Right, Read, Write, U32, Cell;
    InvBase(e, x);
    StepReady(e, x, st);
    match st
    case Arrive(seg, o) => ArriveRight(e, x, seg, o);
    case SendSegment => SendRight(e, x);
    case TakeBump => BumpRight(e, x);
    case TakeUpdate(outn) => UpdateRight(e, x, outn);
    case Opened(outn) => OpenedRight(e, x, outn);
    case ReadBytes(len) => ReadRight(e, x, len);
    case Alloc(len) => AllocRight(e, x, len);
    case _ => QuietRight(e, x, Next(e, x, st).0);
  }

  // ---- Whole runs ---------------------------------------------------------------------------

  ghost predicate AllEnabled(e: Env, x: World, sts: seq<C.Step>)
    requires C.Inv(e, x)
    decreases |sts|
  {
    |sts| > 0 ==>
      && C.Enabled(e, x, sts[0])
      && (StepInv(e, x, sts[0]); AllEnabled(e, Next(e, x, sts[0]).0, sts[1..]))
  }

  /** Final world of a run, everything the application read, and how many steps raised TXCLOSED and RXCLOSED. */
  datatype History = History(world: World, data: seq<Byte>, closed: nat, ended: nat)

  ghost function Run(e: Env, x: World, sts: seq<C.Step>): History
    requires C.Inv(e, x) && AllEnabled(e, x, sts)
    decreases |sts|
  {
    if |sts| == 0 then History(x, [], 0, 0)
    else
      StepInv(e, x, sts[0]);
      var (x1, out) := Next(e, x, sts[0]);
      var r := Run(e, x1, sts[1..]);
      History(r.world, (if out.Bytes? then out.data else []) + r.data,
              r.closed + (if out.Events? && TxClosed in out.evs then 1 else 0),
              r.ended + if out.Events? && RxClosed in out.evs then 1 else 0)
  }

  /** Every step of the run shows the outside only what is right. */
  ghost predicate AllRight(e: Env, x: World, sts: seq<C.Step>)
    requires C.Inv(e, x) && AllEnabled(e, x, sts)
    decreases |sts|
  {
    |sts| > 0 ==>
      && Right(e, x, Next(e, x, sts[0]).0, Next(e, x, sts[0]).1)
      && (StepInv(e, x, sts[0]); AllRight(e, Next(e, x, sts[0]).0, sts[1..]))
  }

  /** Over every run the invariant survives, every output is right, the application reads consecutive pieces of the
      remote stream, and TXCLOSED and RXCLOSED are raised exactly as often as their flags change, so at most once. */
  lemma {:induction false} RunSafe(e: Env, x: World, sts: seq<C.Step>)
    requires C.Inv(e, x) && AllEnabled(e, x, sts)
    ensures var r := Run(e, x, sts);
      && C.Inv(e, r.world) && AllRight(e, x, sts)
      && C.Consumed(x) <= C.Consumed(r.world) <= |e.s|
      && (0 <= C.Consumed(x) ==> r.data == e.s[C.Consumed(x)..C.Consumed(r.world)])
      && r.closed + (if x.conn.txEosAck then 1 else 0) == (if r.world.conn.txEosAck then 1 else 0)
      && r.ended + (if Ended(x) then 1 else 0) == if Ended(r.world) then 1 else 0
    decreases |sts|
  {
    hide C.Inv, Next, C.Enabled, C.Consumed, U32;
    InvBase(e, x);
    if |sts| > 0 {
      StepInv(e, x, sts[0]);
      StepRight(e, x, sts[0]);
      RunSafe(e, Next(e, x, sts[0]).0, sts[1..]);
    } else {
      ConsumedBound(e, x);
    }
  }

  lemma ConsumedBound(e: Env, x: World)
    requires C.Inv(e, x)
    ensures 0 <= C.Consumed(x) <= |e.s|
  {
    hide U32, Cell, C.ToFastPath, C.ToLibrary;
  }

  /** Registers a new flow does not reset: they are what the previous flow of the slot left there. */
  datatype Leftover = Leftover(oooStart: nat, oooLen: nat, dupAcks: nat)

  /** Leftovers of a slot whose previous flow kept its own invariant, with no out-of-order interval or one that
      is outside the new receive window. */
  predicate LeftoverOk(e: Env, len: nat, l: Leftover) {
    l.oooStart < W32 && LeftAside(len, e.isn, l.oooStart, l.oooLen) && l.dupAcks < 3
  }

  /** A connection the application has asked for, with its flow state just installed. */
  ghost function Initial(e: Env, rxBuf: seq<Byte>, txBuf: seq<Byte>, l: Leftover): World
    requires |rxBuf| > 0 && |txBuf| > 0
  {
    C.World(Flow(Installed(|rxBuf|, e.isn, rxBuf, l.oooStart, l.oooLen),
                 Tx(|txBuf|, 0, 0, 0, U32(e.iss), |rxBuf|, l.dupAcks, false, txBuf), 0, false),
            Conn(OpenRequested, 0, 0, 0, 0, 0, 0, 0, 0, 0, 0, false, false, false, false, false),
            [], [], Start(|rxBuf|, l.oooLen), Window(0, 0, 0, false), [])
  }

  /** A connection just set up is sound, and its bumps will be accepted exactly if the receive buffer is no longer than
      the transmit buffer. */
  lemma InitialInv(e: Env, rxBuf: seq<Byte>, txBuf: seq<Byte>, l: Leftover)
    requires 0 < |rxBuf| < HALF32 && 0 < |txBuf| < HALF32 && LeftoverOk(e, |rxBuf|, l)
    ensures C.Base(e, Initial(e, rxBuf, txBuf, l))
    ensures C.Inv(e, Initial(e, rxBuf, txBuf, l)) <==> |rxBuf| <= |txBuf|
  {
    hide U32;
    InstalledRefines(|rxBuf|, e.isn, rxBuf, l.oooStart, l.oooLen, e.s);
    CellZero(|txBuf|);
  }

  /** The main theorem: from connection setup, over every interleaving, every step shows the outside
      only what is right, what the application has read is a prefix of the remote stream, and
      TXCLOSED and RXCLOSED are raised at most once. */
  lemma ConnectionSafe(e: Env, rxBuf: seq<Byte>, txBuf: seq<Byte>, l: Leftover, sts: seq<C.Step>)
    requires 0 < |rxBuf| <= |txBuf| < HALF32 && LeftoverOk(e, |rxBuf|, l)
    requires (InitialInv(e, rxBuf, txBuf, l); AllEnabled(e, Initial(e, rxBuf, txBuf, l), sts))
    ensures (InitialInv(e, rxBuf, txBuf, l);
             var r := Run(e, Initial(e, rxBuf, txBuf, l), sts);
             && C.Inv(e, r.world) && AllRight(e, Initial(e, rxBuf, txBuf, l), sts)
             && r.data <= e.s && r.closed <= 1 && r.ended <= 1)
  {
    hide C.Inv, Run, U32;
    InitialInv(e, rxBuf, txBuf, l);
    RunSafe(e, Initial(e, rxBuf, txBuf, l), sts);
    assert C.Consumed(Initial(e, rxBuf, txBuf, l)) == 0;
  }

  /** In every state with nothing queued, nothing pending and everything read, the fast path has
      at least three quarters of the receive buffer to offer. */
  lemma DrainedWindow(e: Env, x: World)
    requires C.Inv(e, x) && x.conn.status.Open?
    requires x.atx == [] && x.arx == [] && x.conn.rxbUsed == 0 && !x.conn.bumpPending
    ensures x.flow.rx.avail >= x.flow.rx.len - x.flow.rx.len / 4
    ensures x.conn.txbSent == x.flow.tx.sent + x.flow.tx.avail
  {
    hide U32, Cell;
  }
}
