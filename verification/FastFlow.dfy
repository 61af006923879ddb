/** The flow registers updated in place, as the fast path does under the flow lock. */
module FastFlow {
  import opened Arith
  import opened Circular
  import opened TcpCommon
  import opened FlowReceive
  import opened ReceiveReliability
  import opened FlowTransmit
  import opened TransmitReliability
  import opened FlowState

  /** dma_write: contiguous copy into shared memory; `past` are the bytes that land behind the buffer. */
  method DmaWrite(a: array<Byte>, off: nat, src: seq<Byte>) returns (past: seq<Byte>)
    requires off <= a.Length
    modifies a
    ensures forall c :: 0 <= c < a.Length ==> a[c] == if off <= c < off + |src| then src[c - off] else old(a[c])
    ensures past == if off + |src| > a.Length then src[a.Length - off..] else []
  {
    var n := Min(|src|, a.Length - off);
    for i := 0 to n
      invariant forall c :: 0 <= c < a.Length ==> a[c] == if off <= c < off + i then src[c - off] else old(a[c])
    {
      a[off + i] := src[i];
    }
    past := src[n..];
  }

  /** struct flextcp_pl_flowst: the fields the fast path reads and writes for one flow. */
  class FlowRegisters {
    var rxLen: nat
    var txLen: nat
    var bumpSeq: nat
    var slowPath: bool
    var txFin: bool
    var rxFin: bool
    var rxAvail: nat
    var rxNextPos: nat
    var rxNextSeq: nat
    var rxRemoteAvail: nat
    var rxDupAckCnt: nat
    var rxOooStart: nat
    var rxOooLen: nat
    var txAvail: nat
    var txSent: nat
    var txNextPos: nat
    var txNextSeq: nat
    const rxBuf: array<Byte>
    const txBuf: array<Byte>

    /** nicif_connection_add.  The out-of-order registers and the duplicate acknowledgement count are not
        reset: they stay as the previous flow of the slot left them. */
    constructor (rxBuf: array<Byte>, txBuf: array<Byte>, remoteSeq: nat, localSeq: nat,
                 oooStart: nat, oooLen: nat, dupAcks: nat)
      requires 0 < rxBuf.Length < HALF32 && 0 < txBuf.Length < HALF32
      requires rxBuf != txBuf && remoteSeq < W32 && localSeq < W32 && oooStart < W32
      ensures this.rxBuf == rxBuf && this.txBuf == txBuf
      ensures State() == Flow(Rx(rxBuf.Length, rxBuf.Length, 0, remoteSeq, oooStart, oooLen, false, rxBuf[..]),
                              Tx(txBuf.Length, 0, 0, 0, localSeq, rxBuf.Length, dupAcks, false, txBuf[..]), 0, false)
      ensures var gap := Ahead(remoteSeq, oooStart);
        Valid() <==>
          && dupAcks < 3
          && (oooLen == 0 || gap + oooLen <= rxBuf.Length || rxBuf.Length < gap <= W32 - oooLen)
    {
      this.rxBuf, this.txBuf := rxBuf, txBuf;
      rxLen, txLen := rxBuf.Length, txBuf.Length;
      bumpSeq, slowPath, txFin, rxFin := 0, false, false, false;
      rxAvail, rxNextPos, rxNextSeq, rxRemoteAvail := rxBuf.Length, 0, remoteSeq, rxBuf.Length;
      rxDupAckCnt, rxOooStart, rxOooLen := dupAcks, oooStart, oooLen;
      txAvail, txSent, txNextPos, txNextSeq := 0, 0, 0, localSeq;
    }

    /** The receive registers and buffer as one value. */
    function RxRegs(): Rx
      reads this`rxLen, this`rxAvail, this`rxNextPos, this`rxNextSeq, this`rxOooStart, this`rxOooLen, this`rxFin, rxBuf
    {
      Rx(rxLen, rxAvail, rxNextPos, rxNextSeq, rxOooStart, rxOooLen, rxFin, rxBuf[..])
    }

    /** The transmit registers and buffer as one value. */
    function TxRegs(): Tx
      reads this`txLen, this`txAvail, this`txSent, this`txNextPos, this`txNextSeq, this`rxRemoteAvail,
            this`rxDupAckCnt, this`txFin, txBuf
    {
      Tx(txLen, txAvail, txSent, txNextPos, txNextSeq, rxRemoteAvail, rxDupAckCnt, txFin, txBuf[..])
    }

    function State(): Flow
      reads this, rxBuf, txBuf
    {
      Flow(RxRegs(), TxRegs(), bumpSeq, slowPath)
    }

    predicate Valid()
      reads this, rxBuf, txBuf
    {
      rxBuf != txBuf && FlowValid(State())
    }

    /** flow_rx_write. */
    method RxWrite(pos: nat, src: seq<Byte>) returns (past: seq<Byte>)
      requires pos < rxLen == rxBuf.Length
      modifies rxBuf
      ensures rxBuf[..] == Write(old(rxBuf[..]), pos, src) && past == PastEnd(rxLen, pos, src)
    {
      if pos + |src| <= rxLen {
        past := DmaWrite(rxBuf, pos, src);
      } else {
        var part := rxLen - pos;
        var none := DmaWrite(rxBuf, pos, src[..part]);
        past := DmaWrite(rxBuf, 0, src[part..]);
      }
    }

    /** flow_rx_seq_write. */
    method RxSeqWrite(seqno: nat, src: seq<Byte>) returns (past: seq<Byte>)
      requires Sane(RxRegs()) && Ahead(rxNextSeq, seqno) <= rxAvail
      modifies rxBuf
      ensures rxBuf[..] == SeqWrite(old(RxRegs()), seqno, src)
      ensures past == PastEnd(rxLen, old(SeqPos(RxRegs(), seqno)), src)
    {
      var diff := U32(seqno - rxNextSeq);
      var pos := rxNextPos + diff;
      if pos >= rxLen {
        pos := pos - rxLen;
      }
      assert pos < rxLen;
      past := RxWrite(pos, src);
    }

    /** flow_tx_read. */
    method TxRead(pos: nat, n: nat) returns (dst: seq<Byte>)
      requires pos < txLen == txBuf.Length && n <= txLen
      ensures dst == Read(txBuf[..], pos, n)
    {
      if pos + n <= txLen {
        dst := txBuf[pos..pos + n];
      } else {
        var part := txLen - pos;
        dst := txBuf[pos..pos + part] + txBuf[..n - part];
      }
    }

    /** flow_reset_retransmit. */
    method ResetRetransmit()
      requires TxValid(TxRegs())
      modifies this`rxDupAckCnt, this`txNextSeq, this`txNextPos, this`txAvail, this`txSent
      ensures TxRegs() == FlowTransmit.ResetRetransmit(old(TxRegs()))
    {
      hide U32;
      rxDupAckCnt := 0;
      txNextSeq := U32(txNextSeq - txSent);
      if txNextPos >= txSent {
        txNextPos := txNextPos - txSent;
      } else {
        var x := txSent - txNextPos;
        txNextPos := txLen - x;
      }
      txAvail := txAvail + txSent;
      txSent := 0;
    }

    /** fast_flows_retransmit. */
    method Retransmit() returns (arm: Arm)
      requires TxValid(TxRegs())
      modifies this`rxDupAckCnt, this`txNextSeq, this`txNextPos, this`txAvail, this`txSent
      ensures TxRegs() == FlowTransmit.Retransmit(old(TxRegs()))
      ensures arm == ArmIfMore(old(Sendable(TxRegs())), Sendable(TxRegs()))
    {
      var oldAvail := TxAvail(txAvail, txSent, rxRemoteAvail);
      if txSent == 0 {
        return Unchanged;
      }
      ResetRetransmit();
      arm := ArmIfMore(oldAvail, TxAvail(txAvail, txSent, rxRemoteAvail));
    }

    /** fast_flows_qman: at most one segment. */
    method Qman() returns (sent: bool, out: Sent)
      requires TxValid(TxRegs())
      modifies this`txNextSeq, this`txNextPos, this`txSent, this`txAvail
      ensures !sent ==> Send(old(TxRegs())) == Idle && TxRegs() == old(TxRegs())
      ensures sent ==> Send(old(TxRegs())) == Sending(TxRegs(), out)
    {
      hide U32, Read;
      var avail := TxAvail(txAvail, txSent, rxRemoteAvail);
      if avail == 0 {
        return false, Sent(0, [], false);
      }
      var len := Min(avail, TCP_MSS);
      var seqno, pos := txNextSeq, txNextPos;
      txNextSeq := U32(txNextSeq + len);
      txNextPos := txNextPos + len;
      if txNextPos >= txLen {
        txNextPos := txNextPos - txLen;
      }
      txSent := txSent + len;
      txAvail := txAvail - len;
      var fin := txFin && txAvail == 0;
      if fin {
        assert len > 0;
        len := len - 1;
      }
      var payload := TxRead(pos, len);
      sent, out := true, Sent(seqno, payload, fin);
    }

    /** Acknowledgement part of fast_flows_packet. */
    method AckInPlace(seg: Segment) returns (bump: nat, reset: bool)
      requires TxValid(TxRegs()) && SegmentValid(seg)
      modifies this`rxDupAckCnt, this`txNextSeq, this`txNextPos, this`txAvail, this`txSent
      ensures AckResult(TxRegs(), bump, reset) == ProcessAck(old(TxRegs()), seg)
    {
      hide U32, ValidRxAck, FlowTransmit.ResetRetransmit;
      bump, reset := 0, false;
      ValidRxAckExact(txNextSeq, txSent, txAvail, seg.ackno);
      if seg.ack && ValidRxAck(txNextSeq, txSent, txAvail, seg.ackno).Accept? {
        bump := ValidRxAck(txNextSeq, txSent, txAvail, seg.ackno).bump;
        if bump <= txSent {
          txSent := txSent - bump;
        } else {
          txNextSeq := U32(txNextSeq + (bump - txSent));
          txNextPos := txNextPos + (bump - txSent);
          if txNextPos >= txLen {
            txNextPos := txNextPos - txLen;
          }
          txAvail := txAvail - (bump - txSent);
          txSent := 0;
        }
        if bump != 0 {
          rxDupAckCnt := 0;
        } else if |seg.payload| == 0 {
          if rxDupAckCnt + 1 >= 3 {
            ResetRetransmit();
            reset := true;
          } else {
            rxDupAckCnt := rxDupAckCnt + 1;
          }
        }
      }
    }

    /** Out-of-order part of fast_flows_packet. */
    method StoreOutOfOrder(seqno: nat, p: seq<Byte>) returns (past: seq<Byte>)
      requires Sane(RxRegs()) && Ahead(rxNextSeq, seqno) <= rxAvail
      modifies this`rxOooStart, this`rxOooLen, rxBuf
      ensures RxRegs() == AddOutOfOrder(old(RxRegs()), seqno, p)
      ensures past == if old(Storable(RxRegs(), seqno, |p|)) then PastEnd(rxLen, old(SeqPos(RxRegs(), seqno)), p) else []
    {
      hide U32, SeqWrite, SeqPos, PastEnd;
      past := [];
      if |p| == 0 {
        return;
      }
      if rxOooLen == 0 {
        past := RxSeqWrite(seqno, p);
        rxOooStart := seqno;
        rxOooLen := |p|;
      } else if U32(seqno + |p|) == rxOooStart {
        past := RxSeqWrite(seqno, p);
        rxOooStart := seqno;
        rxOooLen := rxOooLen + |p|;
      } else if U32(rxOooStart + rxOooLen) == seqno {
        past := RxSeqWrite(seqno, p);
        rxOooLen := rxOooLen + |p|;
      }
    }

    /** Advance past d more bytes in the receive buffer. */
    method AdvanceInPlace(d: nat)
      modifies this`rxAvail, this`rxNextPos, this`rxNextSeq
      ensures RxRegs() == Advance(old(RxRegs()), d)
      ensures old(d <= rxAvail <= rxLen && rxNextPos < rxLen) ==> rxNextPos < rxLen
    {
      hide U32;
      rxAvail := if d <= rxAvail then rxAvail - d else U32(rxAvail - d);
      rxNextPos := rxNextPos + d;
      if rxNextPos >= rxLen {
        rxNextPos := rxNextPos - rxLen;
      }
      rxNextSeq := U32(rxNextSeq + d);
    }

    /** In-order payload of fast_flows_packet, then the out-of-order interval. */
    method DeliverInPlace(p: seq<Byte>) returns (bump: nat)
      requires Sane(RxRegs()) && |p| <= rxAvail
      modifies this`rxAvail, this`rxNextPos, this`rxNextSeq, this`rxOooStart, this`rxOooLen, rxBuf
      ensures (RxRegs(), bump) == Deliver(old(RxRegs()), p)
    {
      hide U32, Write, MergeOutOfOrder;
      if |p| == 0 {
        return 0;
      }
      var past := RxWrite(rxNextPos, p);
      assert past == [];
      AdvanceInPlace(|p|);
      var more := MergeInPlace();
      bump := |p| + more;
    }

    /** The out-of-order interval after an in-order advance. */
    method MergeInPlace() returns (more: nat)
      requires rxNextSeq < W32 && rxOooStart < W32 && rxAvail < HALF32
      modifies this`rxAvail, this`rxNextPos, this`rxNextSeq, this`rxOooStart, this`rxOooLen
      ensures (RxRegs(), more) == MergeOutOfOrder(old(RxRegs()))
    {
      hide U32, TrimRxBuf;
      more := 0;
      if rxOooLen != 0 {
        TrimAtMost(rxNextSeq, rxAvail, rxOooStart, U16(rxOooLen));
        match TrimRxBuf(rxNextSeq, rxAvail, rxOooStart, U16(rxOooLen))
        case Drop =>
          rxOooLen := 0;
        case Keep(start, end) =>
          rxOooStart := U32(rxOooStart + start);
          rxOooLen := rxOooLen - (start + end);
          if rxOooLen > 0 && rxOooStart == rxNextSeq {
            more := rxOooLen;
            AdvanceInPlace(rxOooLen);
            rxOooLen := 0;
          }
      }
    }

    /** Payload and FIN part of fast_flows_packet. */
    method ReceiveInPlace(seg: Segment)
      returns (bump: nat, finBump: bool, reply: bool, inOrder: bool, past: seq<Byte>)
      requires Sane(RxRegs()) && SegmentValid(seg)
      modifies this`rxAvail, this`rxNextPos, this`rxNextSeq, this`rxOooStart, this`rxOooLen, this`rxFin, rxBuf
      ensures Received(RxRegs(), bump, finBump, reply, inOrder) == Receive(old(RxRegs()), seg)
      ensures past == ReceivePast(old(RxRegs()), seg)
    {
      hide U32, TrimRxBuf, Deliver, AddOutOfOrder, TrimHole, Storable, SeqPos;
      bump, finBump, reply, inOrder, past := 0, false, |seg.payload| > 0, false, [];
      TrimPlaces(RxRegs(), seg);
      match TrimRxBuf(rxNextSeq, rxAvail, seg.seqno, |seg.payload|)
      case Drop =>
        reply := true;
      case Keep(start, end) =>
        var p := seg.payload[start..|seg.payload| - end];
        var seqno := U32(seg.seqno + start);
        if seqno != rxNextSeq {
          reply := true;
          past := StoreOutOfOrder(seqno, p);
          return;
        }
        inOrder := true;
        if rxFin && |p| > 0 {
          return;
        }
        bump := DeliverInPlace(p);
        if seg.fin && !rxFin && rxNextSeq == U32(seg.seqno + |seg.payload|) && rxOooLen == 0 {
          finBump, rxFin, reply := true, true, true;
          rxNextSeq := U32(rxNextSeq + 1);
        }
    }

    /** The same in terms of the remote stream s: a segment for offset o of it, with n bytes received so far,
        announces exactly the next piece of the stream, at the cells that hold it. */
    method ReceiveStream(seg: Segment, ghost a: Ideal, ghost s: seq<Byte>, ghost isn: nat, ghost o: nat)
      returns (bump: nat, finBump: bool, reply: bool, inOrder: bool, ghost a': Ideal)
      requires RxValid(RxRegs()) && Refines(RxRegs(), a, s, isn) && Arrivable(RxRegs(), a, s, isn, seg, o)
      modifies this`rxAvail, this`rxNextPos, this`rxNextSeq, this`rxOooStart, this`rxOooLen, this`rxFin, rxBuf
      ensures RxValid(RxRegs()) && Refines(RxRegs(), a', s, isn) && a.n + bump == a'.n <= |s|
      ensures old(rxNextPos) < rxBuf.Length && bump <= rxBuf.Length
      ensures Read(rxBuf[..], old(rxNextPos), bump) == s[a.n..a'.n]
      ensures (finBump <==> !a.fin && a'.fin) && (a'.fin ==> a'.n == |s|)
      ensures inOrder <==> o <= Expected(a) <= o + |seg.payload|
      ensures reply <==> |seg.payload| > 0 || !inOrder || finBump
    {
      hide U32, Cell, Holds, Receive, IdealReceive, TrimHole, Read, RxValid, InOrderPart, IntervalHeld;
      ghost var rx := RxRegs();
      ReceiveRefines(rx, a, s, isn, seg, o);
      Answered(rx, a, s, isn, seg, o);
      a' := IdealReceive(a, o, |seg.payload|, seg.fin);
      assert Sane(rx) by { InRange(rx); }
      RefinesValid(Receive(rx, seg).rx, a', s, isn);
      ghost var past;
      bump, finBump, reply, inOrder, past := ReceiveInPlace(seg);
    }

    /** The segment sent, in terms of the application's stream t. */
    method SendStream(ghost w: Window, ghost t: seq<Byte>, ghost iss: nat)
      returns (sent: bool, out: Sent, ghost w': Window)
      requires TxValid(TxRegs()) && TxRefines(TxRegs(), w, t, iss)
      modifies this`txNextSeq, this`txNextPos, this`txSent, this`txAvail
      ensures TxRefines(TxRegs(), w', t, iss) && w' == w.(nxt := w'.nxt) && (sent <==> w.nxt < w'.nxt)
      ensures sent ==> out.seqno == U32(iss + w.nxt) && (out.fin <==> w.fin && w'.nxt == w.tail)
      ensures sent ==> w.nxt < w'.nxt <= |t| && out.payload == t[w.nxt..w'.nxt - if out.fin then 1 else 0]
      ensures sent ==> w'.nxt == Min(w.nxt + TCP_MSS, Min(w.tail, w.una + rxRemoteAvail))
      ensures sent <==> w.nxt < Min(w.tail, w.una + rxRemoteAvail)
    {
      hide U32, Cell, Holds, Send, Sendable, TxValid;
      SendRefines(TxRegs(), w, t, iss);
      ghost var n := Min(Sendable(TxRegs()), TCP_MSS);
      sent, out := Qman();
      w' := if sent then w.(nxt := w.nxt + n) else w;
    }

    /** fast_flows_packet. */
    method Packet(seg: Segment)
      returns (rxBump: nat, rxPos: nat, txBump: nat, finBump: bool, reply: bool, toKernel: bool, arm: Arm)
      requires Valid() && SegmentValid(seg)
      modifies this, rxBuf
      ensures PacketResult(State(), rxBump, rxPos, txBump, finBump, reply, toKernel, arm)
        == FlowState.Packet(old(State()), seg)
    {
      hide ProcessAck, Receive, Sane, TxValid, SegmentValid, TxAvail, ArmIfMore;
      rxBump, rxPos, txBump, finBump, reply, toKernel, arm := 0, rxNextPos, 0, false, false, false, Unchanged;
      if slowPath || seg.odd || seg.syn {
        toKernel := true;
        slowPath := slowPath || !seg.syn;
        return;
      }
      var oldAvail := TxAvail(txAvail, txSent, rxRemoteAvail);
      var reset;
      txBump, reset := AckInPlace(seg);
      if !reset {
        var inOrder, past;
        rxBump, finBump, reply, inOrder, past := ReceiveInPlace(seg);
        if inOrder {
          rxRemoteAvail := seg.wnd;
        }
      } else {
        ResetBumpsNothing(old(TxRegs()), seg);
      }
      arm := ArmIfMore(oldAvail, TxAvail(txAvail, txSent, rxRemoteAvail));
    }

    /** fast_flows_bump. */
    method Bump(m: AppBump) returns (accepted: bool, windowUpdate: bool, arm: Arm)
      requires rxBuf != txBuf
      modifies this`bumpSeq, this`txFin, this`txAvail, this`rxAvail
      ensures BumpResult(State(), accepted, windowUpdate, arm) == HandleBump(old(State()), m)
    {
      hide U32, TxAvail, ArmIfMore;
      accepted, windowUpdate, arm := false, false, Unchanged;
      if (m.seqno >= bumpSeq && m.seqno - bumpSeq > 0xFFFF / 2) ||
         (m.seqno < bumpSeq && (bumpSeq < (0xFFFF / 4) * 3 || m.seqno > 0xFFFF / 4)) {
        return;
      }
      bumpSeq := m.seqno;
      var txBump := m.txBump;
      if txFin && txBump != 0 {
        txBump := 0;
      } else if m.done && !txFin && txBump == 0 {
        return;
      }
      var newTxAvail := U32(txAvail + txBump);
      if txBump > txLen || newTxAvail > txLen || U32(newTxAvail + txSent) > txLen {
        return;
      }
      if m.rxBump > rxLen || U32(m.rxBump + rxAvail) > txLen {
        return;
      }
      var oldAvail := TxAvail(txAvail, txSent, rxRemoteAvail);
      var newAvail := TxAvail(newTxAvail, txSent, rxRemoteAvail);
      if m.done && !txFin {
        txFin := true;
      }
      arm := ArmIfMore(oldAvail, newAvail);
      txAvail := newTxAvail;
      var rxAvailPrev := rxAvail;
      rxAvail := U32(rxAvail + m.rxBump);
      windowUpdate := newAvail == 0 && rxAvailPrev == 0 && rxAvail != 0;
      accepted := true;
    }
  }

  lemma ResetBumpsNothing(tx: Tx, seg: Segment)
    requires TxValid(tx) && SegmentValid(seg)
    ensures ProcessAck(tx, seg).reset ==> ProcessAck(tx, seg).bump == 0
  {
  }
}
