/** Transmit reliability: every register of the sender is the image of a stream offset, and every
    segment carries the application's bytes for its sequence numbers. */
module TransmitReliability {
  import opened Arith
  import opened Circular
  import opened TcpCommon
  import opened FlowReceive
  import opened FlowTransmit

  /** Reference sender over stream offsets: oldest unacknowledged, next to send, end of the bytes
      handed over by the application; `fin` once the byte before `tail` is the FIN dummy. */
  datatype Window = Window(una: nat, nxt: nat, tail: nat, fin: bool)

  ghost predicate TxRefines(tx: Tx, w: Window, t: seq<Byte>, iss: nat) {
    && 0 < tx.len == |tx.buf| < HALF32
    && w.una <= w.nxt <= w.tail <= w.una + tx.len && w.tail <= |t|
    && tx.sent == w.nxt - w.una && tx.avail == w.tail - w.nxt
    && tx.nextPos == Cell(w.nxt, tx.len)
    && tx.nextSeq == U32(iss + w.nxt)
    && tx.fin == w.fin && tx.dupAcks < 3
    && Holds(tx.buf, t, w.una, w.tail)
  }

  lemma TxRefinesValid(tx: Tx, w: Window, t: seq<Byte>, iss: nat)
    requires TxRefines(tx, w, t, iss)
    ensures TxValid(tx)
  {
  }

  /** Going back to the oldest unacknowledged byte. */
  lemma ResetRefines(tx: Tx, w: Window, t: seq<Byte>, iss: nat)
    requires TxRefines(tx, w, t, iss)
    ensures TxRefines(ResetRetransmit(tx), w.(nxt := w.una), t, iss)
  {
    hide U32, Cell, Holds;
    U32Absorb(iss + w.nxt, 0 - tx.sent);
    CellBump(w.una, tx.sent, tx.len);
    CellBump(w.una, tx.len, tx.len);
  }

  /** Acknowledging up to stream offset x. */
  lemma AckedRefines(tx: Tx, w: Window, t: seq<Byte>, iss: nat, x: nat)
    requires TxRefines(tx, w, t, iss) && w.una <= x <= w.tail
    ensures TxRefines(Acked(tx, x - w.una), w.(una := x, nxt := Max(w.nxt, x)), t, iss)
  {
    hide U32, Cell;
    if x > w.nxt {
      U32Absorb(iss + w.nxt, x - w.nxt);
      CellBump(w.nxt, x - w.nxt, tx.len);
    }
  }

  /** The offset an acknowledgement number stands for, seen from the oldest unacknowledged byte. */
  function AckOffset(w: Window, iss: nat, ackno: nat): nat {
    w.una + Ahead(iss + w.una, ackno)
  }

  /** An acknowledgement is accepted exactly when it names an offset between the oldest
      unacknowledged byte and the end of the buffered data, sent or not; the unacknowledged edge
      then is exactly that offset; and the third duplicate in a row rewinds to it. */
  lemma AckRefines(tx: Tx, w: Window, t: seq<Byte>, iss: nat, seg: Segment)
    requires TxValid(tx) && TxRefines(tx, w, t, iss) && SegmentValid(seg)
    ensures var r, x := ProcessAck(tx, seg), AckOffset(w, iss, seg.ackno);
      && U32(iss + x) == seg.ackno
      && (r.bump > 0 <==> seg.ack && w.una < x <= w.tail)
      && (r.bump > 0 ==> r.bump == x - w.una && !r.reset)
      && (r.reset <==> seg.ack && x == w.una && |seg.payload| == 0 && tx.dupAcks == 2)
      && TxRefines(r.tx, if r.bump > 0 then w.(una := x, nxt := Max(w.nxt, x))
                         else if r.reset then w.(nxt := w.una) else w, t, iss)
      && r.tx.dupAcks == (if r.bump > 0 || r.reset then 0
                          else if seg.ack && x == w.una && |seg.payload| == 0 then tx.dupAcks + 1
                          else tx.dupAcks)
      && r.tx.remoteAvail == tx.remoteAvail
  {
    hide U32, Cell, Holds, Acked, ResetRetransmit;
    var x := AckOffset(w, iss, seg.ackno);
    AckOffsetSeq(tx, w, iss, seg.ackno);
    ValidRxAckExact(tx.nextSeq, tx.sent, tx.avail, seg.ackno);
    if x <= w.tail {
      AckedRefines(tx, w, t, iss, x);
      AckedKeeps(tx, x - w.una);
    }
    ResetRefines(tx, w, t, iss);
    ResetKeeps(tx);
  }

  lemma AckedKeeps(tx: Tx, bump: nat)
    requires bump <= tx.sent + tx.avail
    ensures var r := Acked(tx, bump);
      && r.dupAcks == tx.dupAcks && r.remoteAvail == tx.remoteAvail
      && (bump == 0 ==> r == tx)
  {
  }

  lemma ResetKeeps(tx: Tx)
    requires tx.sent <= tx.len && tx.nextPos < tx.len
    ensures ResetRetransmit(tx).dupAcks == 0 && ResetRetransmit(tx).remoteAvail == tx.remoteAvail
  {
  }

  lemma AckOffsetSeq(tx: Tx, w: Window, iss: nat, ackno: nat)
    requires w.una <= w.nxt && tx.sent == w.nxt - w.una < W32 && tx.nextSeq == U32(iss + w.nxt) && ackno < W32
    ensures U32(iss + AckOffset(w, iss, ackno)) == ackno
    ensures Ahead(tx.nextSeq - tx.sent, ackno) == AckOffset(w, iss, ackno) - w.una
  {
    hide U32;
    U32Near(ackno);
    var u := iss + w.una;
    U32Absorb(ackno - u, u);
    U32Absorb(iss + w.nxt, 0 - tx.sent);
    AheadCongruent(tx.nextSeq - tx.sent, u, ackno);
  }

  lemma AheadCongruent(a: int, b: int, x: int)
    requires U32(a) == U32(b)
    ensures Ahead(a, x) == Ahead(b, x)
  {
  }

  /** How far the peer lets the sender go. */
  function RightEdge(tx: Tx, w: Window): nat {
    w.una + tx.remoteAvail
  }

  /** Every segment sent starts at the offset its sequence number names, carries exactly the
      application's bytes from there, and has FIN set exactly when it covers the dummy byte,
      which itself is never part of the payload.  It ends at the end of the data, at the peer's window or after
      one maximum segment, whichever comes first; none is sent exactly if that leaves nothing. */
  lemma SendRefines(tx: Tx, w: Window, t: seq<Byte>, iss: nat)
    requires TxValid(tx) && TxRefines(tx, w, t, iss)
    ensures var r := Send(tx);
      && (r.Idle? <==> Sendable(tx) == 0)
      && (r.Sending? ==>
        var len := Min(Sendable(tx), TCP_MSS);
        && 0 < len <= w.tail - w.nxt
        && TxRefines(r.tx, w.(nxt := w.nxt + len), t, iss)
        && r.out.seqno == U32(iss + w.nxt)
        && (r.out.fin <==> w.fin && w.nxt + len == w.tail)
        && r.out.payload == t[w.nxt..w.nxt + len - if r.out.fin then 1 else 0]
        && w.nxt + len == Min(w.nxt + TCP_MSS, Min(w.tail, RightEdge(tx, w))))
      && (r.Idle? <==> w.nxt >= Min(w.tail, RightEdge(tx, w)))
  {
    hide U32, Cell, Read, TxAvail;
    TxAvailExact(tx.avail, tx.sent, tx.remoteAvail);
    if Sendable(tx) > 0 {
      var len := Min(Sendable(tx), TCP_MSS);
      CellBump(w.nxt, len, tx.len);
      U32Absorb(iss + w.nxt, len);
      var n := len - if w.fin && w.nxt + len == w.tail then 1 else 0;
      ReadHolds(tx.buf, t, w.nxt, n);
    }
  }
}
