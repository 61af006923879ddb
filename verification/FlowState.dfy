/** One flow of the fast path as a value: both halves together, and the three entry points that
    change it (tas/fast/fast_flows.c: fast_flows_packet, fast_flows_bump, fast_flows_qman). */
module FlowState {
  import opened Arith
  import opened FlowReceive
  import opened FlowTransmit

  datatype Flow = Flow(rx: Rx, tx: Tx, bumpSeq: nat, slow: bool)

  predicate FlowValid(f: Flow) {
    RxValid(f.rx) && TxValid(f.tx) && f.bumpSeq < W16
  }

  /** A queue-manager request: none, or set the flow's queue to this many bytes. */
  datatype Arm = Unchanged | SetAvail(bytes: nat)

  function ArmIfMore(before: nat, after: nat): Arm {
    if after > before then SetAvail(after) else Unchanged
  }

  /** A packet's effects: new state, connection update for the application, acknowledgement to
      send, hand-over to the slow path, queue-manager request. */
  datatype PacketResult = PacketResult(flow: Flow, rxBump: nat, rxPos: nat, txBump: nat, finBump: bool,
                                       reply: bool, toKernel: bool, arm: Arm)

  /** fast_flows_packet. */
  function Packet(f: Flow, seg: Segment): PacketResult
    requires FlowValid(f) && SegmentValid(seg)
  {
    var rxPos := f.rx.nextPos;
    if f.slow || seg.odd || seg.syn then
      PacketResult(f.(slow := f.slow || !seg.syn), 0, rxPos, 0, false, false, true, Unchanged)
    else
      var a := ProcessAck(f.tx, seg);
      if a.reset then
        PacketResult(f.(tx := a.tx), 0, rxPos, 0, false, false, false,
                     ArmIfMore(Sendable(f.tx), Sendable(a.tx)))
      else
        var r := Receive(f.rx, seg);
        var tx := if r.inOrder then a.tx.(remoteAvail := seg.wnd) else a.tx;
        PacketResult(f.(rx := r.rx, tx := tx), r.bump, rxPos, a.bump, r.finBump, r.reply, false,
                     ArmIfMore(Sendable(f.tx), Sendable(tx)))
  }

  /** A connection update from the application: freed receive bytes, new transmit bytes, sequence
      number of the update, end of stream. */
  datatype AppBump = AppBump(rxBump: nat, txBump: nat, seqno: nat, done: bool)

  /** The wrapping comparison that catches bumps arriving out of order. */
  predicate Stale(last: nat, seqno: nat) {
    || (seqno >= last && seqno - last > 0xFFFF / 2)
    || (seqno < last && (last < (0xFFFF / 4) * 3 || seqno > 0xFFFF / 4))
  }

  datatype BumpResult = BumpResult(flow: Flow, accepted: bool, windowUpdate: bool, arm: Arm)

  /** fast_flows_bump.  The receive check compares with the transmit buffer length, as the source does. */
  function HandleBump(f: Flow, m: AppBump): BumpResult {
    var tx, rx := f.tx, f.rx;
    if Stale(f.bumpSeq, m.seqno) then BumpResult(f, false, false, Unchanged)
    else
      var f1 := f.(bumpSeq := m.seqno);
      var txBump := if tx.fin then 0 else m.txBump;
      var txAvail := U32(tx.avail + txBump);
      if m.done && !tx.fin && txBump == 0 then BumpResult(f1, false, false, Unchanged)
      else if txBump > tx.len || txAvail > tx.len || U32(txAvail + tx.sent) > tx.len then
        BumpResult(f1, false, false, Unchanged)
      else if m.rxBump > rx.len || U32(m.rxBump + rx.avail) > tx.len then
        BumpResult(f1, false, false, Unchanged)
      else
        var tx' := tx.(avail := txAvail, fin := tx.fin || m.done);
        var rx' := rx.(avail := U32(rx.avail + m.rxBump));
        BumpResult(f1.(tx := tx', rx := rx'), true,
                   Sendable(tx') == 0 && rx.avail == 0 && rx'.avail != 0,
                   ArmIfMore(Sendable(tx), Sendable(tx')))
  }

  /** A sequence number that directly follows the last one is never taken for stale. */
  lemma NextNotStale(last: nat)
    requires last < W16
    ensures !Stale(last, U16(last + 1))
  {
  }

  /** What the comparison is for: a bump up to a quarter of the range ahead of the last one is taken, one up to about half
      the range behind it is refused. */
  lemma StaleSeparates(last: nat, d: nat)
    requires last < W16
    ensures d <= 0x4000 ==> !Stale(last, U16(last + d))
    ensures 0 < d <= 0x7FFD ==> Stale(last, U16(last + W16 - d))
  {
  }

  /** A bump is taken exactly if it is not stale, the end of the stream comes with a byte, and it fits: the transmit buffer
      with what is in it, unless the stream has ended, when nothing is added; the receive part the receive buffer and, as
      the window with what is offered, the length of the transmit buffer.  A refused bump changes the sequence number at
      most. */
  lemma BumpIff(f: Flow, m: AppBump)
    requires FlowValid(f) && m.rxBump < W32 && m.txBump < W32
    ensures var r := HandleBump(f, m);
      var more := if f.tx.fin then 0 else m.txBump;
      && (r.accepted <==>
           && !Stale(f.bumpSeq, m.seqno) && (m.done && !f.tx.fin ==> m.txBump > 0)
           && f.tx.sent + f.tx.avail + more <= f.tx.len
           && m.rxBump <= f.rx.len && f.rx.avail + m.rxBump <= f.tx.len)
      && (r.accepted ==>
           && r.flow.rx == f.rx.(avail := f.rx.avail + m.rxBump)
           && r.flow.tx == f.tx.(avail := f.tx.avail + more, fin := f.tx.fin || m.done)
           && TxValid(r.flow.tx))
      && (!r.accepted ==> r.flow == f.(bumpSeq := r.flow.bumpSeq) && r.arm == Unchanged && !r.windowUpdate)
      && r.flow.bumpSeq == (if Stale(f.bumpSeq, m.seqno) then f.bumpSeq else m.seqno) && r.flow.slow == f.slow
  {
    hide U32;
    var more := if f.tx.fin then 0 else m.txBump;
    U32Near(f.tx.avail + more);
    U32Near(U32(f.tx.avail + more) + f.tx.sent);
    U32Near(m.rxBump + f.rx.avail);
  }

  /** A bump within the free part of both buffers is accepted whenever the receive buffer is no
      longer than the transmit buffer ... */
  lemma BumpAccepted(f: Flow, m: AppBump)
    requires FlowValid(f) && !Stale(f.bumpSeq, m.seqno)
    requires f.rx.len <= f.tx.len
    requires m.rxBump <= f.rx.len - f.rx.avail
    requires f.tx.fin ==> m.txBump == 0
    requires m.txBump <= f.tx.len - f.tx.avail - f.tx.sent && (m.done && !f.tx.fin ==> m.txBump > 0)
    ensures var r := HandleBump(f, m);
      && r.accepted
      && r.flow.rx == f.rx.(avail := f.rx.avail + m.rxBump)
      && r.flow.tx == f.tx.(avail := f.tx.avail + m.txBump, fin := f.tx.fin || m.done)
      && r.flow.bumpSeq == m.seqno && r.flow.slow == f.slow
  {
    hide U32;
    U32Near(f.tx.avail + m.txBump);
    U32Near(f.tx.avail + m.txBump + f.tx.sent);
    U32Near(m.rxBump + f.rx.avail);
  }

  /** An accepted bump asks for a window update exactly if it opens a closed receive window and nothing can be sent that
      would tell the peer. */
  lemma WindowUpdateIff(f: Flow, m: AppBump)
    requires FlowValid(f) && HandleBump(f, m).accepted
    ensures var r := HandleBump(f, m);
      var idle := r.flow.tx.avail == 0 || r.flow.tx.remoteAvail <= r.flow.tx.sent;
      r.windowUpdate <==> f.rx.avail == 0 && m.rxBump > 0 && idle
  {
    hide U32;
    U32Near(f.rx.avail + m.rxBump);
  }

  /** ... and only then: a longer receive buffer makes the fast path refuse the bump that returns
      a fully read buffer. */
  lemma BumpAcceptedIff(f: Flow, seqno: nat)
    requires FlowValid(f) && !Stale(f.bumpSeq, seqno) && f.rx.avail < f.rx.len
    ensures HandleBump(f, AppBump(f.rx.len - f.rx.avail, 0, seqno, false)).accepted <==> f.rx.len <= f.tx.len
  {
    hide U32;
    U32Near(f.tx.avail);
    U32Near(f.tx.avail + f.tx.sent);
    U32Near(f.rx.len);
  }

  /** A receive buffer of two bytes and a transmit buffer of one: the bump that returns both is refused. */
  lemma BumpRefused(f: Flow)
    requires f == Flow(Rx(2, 0, 0, 0, 0, 0, false, [0, 0]), Tx(1, 0, 0, 0, 0, 0, 0, false, [0]), 0, false)
    ensures FlowValid(f) && !HandleBump(f, AppBump(2, 0, 1, false)).accepted
    ensures HandleBump(f, AppBump(1, 0, 1, false)).accepted
  {
  }
}
