/** The transmit half of a flow (tas/fast/fast_flows.c): acknowledgements, segment creation,
    go-back-N, bumps from the application, FIN through a dummy byte. */
module FlowTransmit {
  import opened Arith
  import opened Circular
  import opened TcpCommon
  import opened FlowReceive

  const TCP_MSS: nat := 1400

  /** Transmit registers of struct flextcp_pl_flowst, and the transmit buffer they describe. */
  datatype Tx = Tx(len: nat, avail: nat, sent: nat, nextPos: nat, nextSeq: nat,
                   remoteAvail: nat, dupAcks: nat, fin: bool, buf: seq<Byte>)

  predicate TxValid(tx: Tx) {
    && 0 < tx.len == |tx.buf| < HALF32
    && tx.sent + tx.avail <= tx.len
    && tx.nextPos < tx.len && tx.nextSeq < W32
    && tx.dupAcks < 3
  }

  function Sendable(tx: Tx): nat {
    TxAvail(tx.avail, tx.sent, tx.remoteAvail)
  }

  /** flow_reset_retransmit: as if the unacknowledged bytes had never been sent. */
  function ResetRetransmit(tx: Tx): Tx
    requires tx.sent <= tx.len && tx.nextPos < tx.len
  {
    tx.(dupAcks := 0, nextSeq := U32(tx.nextSeq - tx.sent),
        nextPos := if tx.nextPos >= tx.sent then tx.nextPos - tx.sent else tx.len - (tx.sent - tx.nextPos),
        avail := tx.avail + tx.sent, sent := 0)
  }

  /** fast_flows_retransmit. */
  function Retransmit(tx: Tx): Tx
    requires TxValid(tx)
  {
    if tx.sent == 0 then tx else ResetRetransmit(tx)
  }

  /** Acknowledging `bump` bytes, possibly beyond what was sent since the last reset. */
  function Acked(tx: Tx, bump: nat): Tx
    requires bump <= tx.sent + tx.avail
  {
    if bump <= tx.sent then tx.(sent := tx.sent - bump)
    else
      var d := bump - tx.sent;
      tx.(nextSeq := U32(tx.nextSeq + d), nextPos := Bump(tx.nextPos, d, tx.len),
          avail := tx.avail - d, sent := 0)
  }

  datatype AckResult = AckResult(tx: Tx, bump: nat, reset: bool)

  /** Acknowledgement part of fast_flows_packet. */
  function ProcessAck(tx: Tx, seg: Segment): AckResult
    requires TxValid(tx) && SegmentValid(seg)
  {
    if !seg.ack then AckResult(tx, 0, false)
    else
      ValidRxAckExact(tx.nextSeq, tx.sent, tx.avail, seg.ackno);
      match ValidRxAck(tx.nextSeq, tx.sent, tx.avail, seg.ackno)
      case Reject => AckResult(tx, 0, false)
      case Accept(bump) =>
        var tx1 := Acked(tx, bump);
        if bump != 0 then AckResult(tx1.(dupAcks := 0), bump, false)
        else if |seg.payload| == 0 && tx1.dupAcks + 1 >= 3 then AckResult(ResetRetransmit(tx1), 0, true)
        else if |seg.payload| == 0 then AckResult(tx1.(dupAcks := tx1.dupAcks + 1), 0, false)
        else AckResult(tx1, 0, false)
  }

  /** A segment handed to the network. */
  datatype Sent = Sent(seqno: nat, payload: seq<Byte>, fin: bool)

  datatype SendResult = Idle | Sending(tx: Tx, out: Sent)

  /** fast_flows_qman: send at most one segment; the last byte of a closed stream is the dummy
      byte that stands for FIN and is cut off the payload. */
  function Send(tx: Tx): SendResult
    requires TxValid(tx)
  {
    var avail := Sendable(tx);
    if avail == 0 then Idle
    else
      var len := Min(avail, TCP_MSS);
      var tx' := tx.(nextSeq := U32(tx.nextSeq + len), nextPos := Bump(tx.nextPos, len, tx.len),
                     sent := tx.sent + len, avail := tx.avail - len);
      var fin := tx'.fin && tx'.avail == 0;
      Sending(tx', Sent(tx.nextSeq, Read(tx.buf, tx.nextPos, len - if fin then 1 else 0), fin))
  }
}
