/** The receive half of a flow (tas/fast/fast_flows.c, fast_flows_packet): window trimming, one
    out-of-order interval, circular receive buffer, FIN. */
module FlowReceive {
  import opened Arith
  import opened Circular
  import opened TcpCommon

  /** Receive registers of struct flextcp_pl_flowst, and the receive buffer they describe. */
  datatype Rx = Rx(len: nat, avail: nat, nextPos: nat, nextSeq: nat,
                   oooStart: nat, oooLen: nat, fin: bool, buf: seq<Byte>)

  /** The parts of an incoming TCP segment the fast path looks at; `odd` stands for any flag
      other than ACK, PSH, ECE, CWR, FIN and SYN. */
  datatype Segment = Segment(seqno: nat, ackno: nat, wnd: nat, ack: bool, fin: bool,
                             syn: bool, odd: bool, payload: seq<Byte>)

  datatype Received = Received(rx: Rx, bump: nat, finBump: bool, reply: bool, inOrder: bool)

  predicate SegmentValid(seg: Segment) {
    seg.seqno < W32 && seg.ackno < W32 && seg.wnd < W16 && |seg.payload| < W16
  }

  /** Distance of the out-of-order interval from the next expected byte. */
  function OooGap(rx: Rx): nat {
    Ahead(rx.nextSeq, rx.oooStart)
  }

  /** Everything is in range; the out-of-order interval may be anywhere. */
  predicate Sane(rx: Rx) {
    && 0 < rx.len == |rx.buf| < HALF32
    && rx.avail <= rx.len
    && rx.nextPos < rx.len
    && rx.nextSeq < W32 && rx.oooStart < W32
  }

  /** The out-of-order interval is in the window, or reaches into no part of the buffer. */
  predicate RxValid(rx: Rx) {
    && Sane(rx)
    && (rx.oooLen > 0 ==> OooGap(rx) + rx.oooLen <= rx.avail || Aside(rx))
  }

  /** An interval that reaches into no part of the buffer: left over from the flow that used the slot
      before, whose out-of-order registers a new flow does not reset. */
  predicate Aside(rx: Rx) {
    OooGap(rx) > rx.len && OooGap(rx) + rx.oooLen <= W32
  }

  predicate InHole(rx: Rx, seg: Segment) {
    TrimHole(rx.nextSeq, rx.avail, seg.seqno, |seg.payload|)
  }

  /** flow_rx_seq_write. */
  function SeqWrite(rx: Rx, seqno: nat, p: seq<Byte>): (b: seq<Byte>)
    requires Sane(rx) && Ahead(rx.nextSeq, seqno) <= rx.avail
    ensures |b| == |rx.buf|
  {
    Write(rx.buf, SeqPos(rx, seqno), p)
  }

  /** The cell of a sequence number in the window. */
  function SeqPos(rx: Rx, seqno: nat): (pos: nat)
    requires Sane(rx) && Ahead(rx.nextSeq, seqno) <= rx.avail
    ensures pos < rx.len
  {
    Bump(rx.nextPos, Ahead(rx.nextSeq, seqno), rx.len)
  }

  /** Out-of-order payload is stored if it starts, precedes or follows the single interval. */
  predicate Storable(rx: Rx, seqno: nat, n: nat) {
    n > 0 && (rx.oooLen == 0 || U32(seqno + n) == rx.oooStart || U32(rx.oooStart + rx.oooLen) == seqno)
  }

  function GrowInterval(rx: Rx, seqno: nat, n: nat): Rx {
    if rx.oooLen == 0 then rx.(oooStart := seqno, oooLen := n)
    else if U32(seqno + n) == rx.oooStart then rx.(oooStart := seqno, oooLen := rx.oooLen + n)
    else rx.(oooLen := rx.oooLen + n)
  }

  function AddOutOfOrder(rx: Rx, seqno: nat, p: seq<Byte>): Rx
    requires Sane(rx) && Ahead(rx.nextSeq, seqno) <= rx.avail
  {
    if Storable(rx, seqno, |p|) then GrowInterval(rx, seqno, |p|).(buf := SeqWrite(rx, seqno, p)) else rx
  }

  /** Advance past d bytes.  More than fit make the window wrap, and leave the position out of range, which
      the source asserts does not happen. */
  function Advance(rx: Rx, d: nat): Rx {
    rx.(avail := if d <= rx.avail then rx.avail - d else U32(rx.avail - d),
        nextPos := Bump(rx.nextPos, d, rx.len), nextSeq := U32(rx.nextSeq + d))
  }

  /** Signed distance of the interval from the next expected byte, negative once overtaken. */
  function OooDistance(rx: Rx): int {
    if OooGap(rx) < HALF32 then OooGap(rx) else OooGap(rx) - W32
  }

  predicate Mergeable(rx: Rx) {
    && rx.nextSeq < W32 && rx.oooStart < W32 && rx.avail < HALF32
    && (rx.oooLen > 0 ==> OooDistance(rx) + rx.oooLen <= rx.avail || OooDistance(rx) > rx.avail)
  }

  /** After an in-order advance: trim the stored interval against the new window, and join it to
      the stream once it is contiguous.  The interval length passes through a 16-bit parameter. */
  function MergeOutOfOrder(rx: Rx): (r: (Rx, nat))
    requires rx.nextSeq < W32 && rx.oooStart < W32 && rx.avail < HALF32
  {
    if rx.oooLen == 0 then (rx, 0)
    else
      TrimAtMost(rx.nextSeq, rx.avail, rx.oooStart, U16(rx.oooLen));
      match TrimRxBuf(rx.nextSeq, rx.avail, rx.oooStart, U16(rx.oooLen))
      case Drop => (rx.(oooLen := 0), 0)
      case Keep(start, end) =>
        var rx' := rx.(oooStart := U32(rx.oooStart + start), oooLen := rx.oooLen - (start + end));
        if rx'.oooLen > 0 && rx'.oooStart == rx'.nextSeq then
          (Advance(rx', rx'.oooLen).(oooLen := 0), rx'.oooLen)
        else (rx', 0)
  }

  /** Trimming the stored interval removes exactly the part the stream has overtaken, and drops an
      interval outside the window. */
  lemma IntervalTrim(rx: Rx)
    requires Mergeable(rx) && rx.oooLen > 0
    ensures var d := OooDistance(rx);
      TrimRxBuf(rx.nextSeq, rx.avail, rx.oooStart, U16(rx.oooLen))
      == if d + U16(rx.oooLen) < 0 || d > rx.avail then Drop else Keep(Max(0, -d), 0)
    ensures OooDistance(rx) <= 0 && OooDistance(rx) + U16(rx.oooLen) >= 0
      ==> U32(rx.oooStart - OooDistance(rx)) == rx.nextSeq
    ensures U16(rx.oooLen) <= rx.oooLen
  {
    hide U32;
    var d := OooDistance(rx);
    DistanceIs(rx);
    assert U16(rx.oooLen) <= rx.oooLen;
    NoHoleAt(rx.nextSeq, rx.avail, rx.oooStart, U16(rx.oooLen), d);
    TrimByDistance(rx.nextSeq, rx.avail, d, U16(rx.oooLen));
  }

  /** Trimming never takes off more than there is. */
  lemma TrimAtMost(nextSeq: nat, avail: nat, start: nat, len: nat)
    requires nextSeq < W32 && start < W32 && avail < HALF32 && len < W16
    ensures var t := TrimRxBuf(nextSeq, avail, start, len);
      t.Keep? ==> t.start + t.end <= len
  {
    hide U32;
    if TrimHole(nextSeq, avail, start, len) {
      TrimInHole(nextSeq, avail, start, len);
    } else {
      var d := SignedDistance(nextSeq, avail, start, len);
      TrimByDistance(nextSeq, avail, d, len);
    }
  }

  lemma DistanceIs(rx: Rx)
    requires rx.nextSeq < W32 && rx.oooStart < W32
    ensures -HALF32 <= OooDistance(rx) < HALF32
    ensures U32(rx.nextSeq + OooDistance(rx)) == rx.oooStart && U32(rx.oooStart - OooDistance(rx)) == rx.nextSeq
  {
    hide U32;
    U32Near(rx.oooStart - rx.nextSeq);
    U32Near(rx.nextSeq + OooDistance(rx));
    U32Near(rx.oooStart - OooDistance(rx));
  }

  /** An interval that ends inside the window, or starts beyond it, is not in the hole. */
  lemma NoHoleAt(nextSeq: nat, avail: nat, start: nat, len: nat, d: int)
    requires nextSeq < W32 && start == U32(nextSeq + d) && avail < HALF32 && -HALF32 <= d < HALF32 && len < W16
    requires d + len <= avail || d > avail
    ensures !TrimHole(nextSeq, avail, start, len)
  {
    hide U32;
    U32Near(nextSeq + d);
    U32Near(nextSeq + avail);
    U32Near(start + len);
  }

  /** In-order payload goes to the buffer, then the out-of-order interval is reconsidered. */
  function Deliver(rx: Rx, p: seq<Byte>): (r: (Rx, nat))
    requires Sane(rx) && |p| <= rx.avail
  {
    if |p| == 0 then (rx, 0)
    else
      var rx1 := Advance(rx.(buf := Write(rx.buf, rx.nextPos, p)), |p|);
      var (rx2, more) := MergeOutOfOrder(rx1);
      (rx2, |p| + more)
  }

  function Receive(rx: Rx, seg: Segment): Received
    requires Sane(rx) && SegmentValid(seg)
  {
    match TrimRxBuf(rx.nextSeq, rx.avail, seg.seqno, |seg.payload|)
    case Drop => Received(rx, 0, false, true, false)
    case Keep(start, end) =>
      TrimPlaces(rx, seg);
      var p := seg.payload[start..|seg.payload| - end];
      var seqno := U32(seg.seqno + start);
      if seqno != rx.nextSeq then
        Received(AddOutOfOrder(rx, seqno, p), 0, false, true, false)
      else if rx.fin && |p| > 0 then
        Received(rx, 0, false, |seg.payload| > 0, true)
      else
        var (rx1, bump) := Deliver(rx, p);
        AcceptFin(rx1, bump, seg)
  }

  /** The bytes the receiver puts past the end of its buffer. */
  function ReceivePast(rx: Rx, seg: Segment): seq<Byte>
    requires Sane(rx) && SegmentValid(seg)
  {
    match TrimRxBuf(rx.nextSeq, rx.avail, seg.seqno, |seg.payload|)
    case Drop => []
    case Keep(start, end) =>
      TrimPlaces(rx, seg);
      var p := seg.payload[start..|seg.payload| - end];
      var seqno := U32(seg.seqno + start);
      if seqno != rx.nextSeq then
        if Storable(rx, seqno, |p|) then PastEnd(rx.len, SeqPos(rx, seqno), p) else []
      else if rx.fin then []
      else PastEnd(rx.len, rx.nextPos, p)
  }

  /** FIN is taken only when it is the very next sequence number and nothing is stored out of order. */
  function AcceptFin(rx: Rx, bump: nat, seg: Segment): Received {
    if seg.fin && !rx.fin && rx.nextSeq == U32(seg.seqno + |seg.payload|) && rx.oooLen == 0 then
      Received(rx.(fin := true, nextSeq := U32(rx.nextSeq + 1)), bump, true, true, true)
    else
      Received(rx, bump, false, |seg.payload| > 0, true)
  }

  lemma OvertakeMergeable(rx: Rx, p: seq<Byte>)
    requires RxValid(rx) && |p| <= rx.avail
    ensures var rx1 := Advance(rx.(buf := Write(rx.buf, rx.nextPos, p)), |p|);
      && Mergeable(rx1)
      && (rx.oooLen > 0 && !Aside(rx) ==> OooDistance(rx1) == OooGap(rx) - |p|)
      && (rx.oooLen > 0 && Aside(rx) && |p| > 0 ==> OooDistance(rx1) > rx1.avail || OooDistance(rx1) + rx1.oooLen < 0)
  {
    hide U32, Write;
    var next := U32(rx.nextSeq + |p|);
    U32Near(rx.oooStart - rx.nextSeq);
    U32Near(rx.nextSeq + |p|);
    U32Near(rx.oooStart - next);
  }

  /** What survives trimming fits in the window, wherever it starts. */
  lemma TrimFits(rx: Rx, seg: Segment)
    requires Sane(rx) && SegmentValid(seg) && !InHole(rx, seg)
    ensures var t := TrimRxBuf(rx.nextSeq, rx.avail, seg.seqno, |seg.payload|);
      && (t.Keep? ==> t.start + t.end <= |seg.payload|)
      && (t.Keep? ==> Ahead(rx.nextSeq, U32(seg.seqno + t.start)) + (|seg.payload| - t.end - t.start) <= rx.avail)
  {
    hide U32;
    var len := |seg.payload|;
    var d := SignedDistance(rx.nextSeq, rx.avail, seg.seqno, len);
    TrimByDistance(rx.nextSeq, rx.avail, d, len);
    if 0 <= d + len && d <= rx.avail {
      var start: nat := Max(0, -d);
      U32Absorb(rx.nextSeq + d, start);
      AheadBy(rx.nextSeq, d + start);
    }
  }

  /** What survives trimming starts in the window; in-order payload fits. */
  lemma TrimPlaces(rx: Rx, seg: Segment)
    requires Sane(rx) && SegmentValid(seg)
    ensures var t := TrimRxBuf(rx.nextSeq, rx.avail, seg.seqno, |seg.payload|);
      t.Keep? ==>
        var n, seqno := |seg.payload| - t.end - t.start, U32(seg.seqno + t.start);
        && t.start + t.end <= |seg.payload|
        && Ahead(rx.nextSeq, seqno) <= rx.avail && (seqno == rx.nextSeq ==> n <= rx.avail)
  {
    hide U32;
    if InHole(rx, seg) {
      TrimInHole(rx.nextSeq, rx.avail, seg.seqno, |seg.payload|);
      U32Near(seg.seqno);
      U32Near(seg.seqno - rx.nextSeq);
      U32Near(rx.nextSeq + rx.avail);
    } else {
      TrimFits(rx, seg);
    }
  }

  /** What survives trimming lies inside the window. */
  predicate Fits(rx: Rx, seg: Segment, t: Trim) {
    t.Keep? ==>
      && t.start + t.end <= |seg.payload|
      && Ahead(rx.nextSeq, U32(seg.seqno + t.start)) + (|seg.payload| - t.end - t.start) <= rx.avail
  }

  /** The hole is exactly where the receiver would take more than its window has room for. */
  lemma FitsIff(rx: Rx, seg: Segment)
    requires Sane(rx) && SegmentValid(seg)
    ensures Fits(rx, seg, TrimRxBuf(rx.nextSeq, rx.avail, seg.seqno, |seg.payload|)) <==> !InHole(rx, seg)
  {
    hide U32;
    var len := |seg.payload|;
    if InHole(rx, seg) {
      TrimInHole(rx.nextSeq, rx.avail, seg.seqno, len);
      U32Near(seg.seqno);
      U32Near(seg.seqno - rx.nextSeq);
      U32Near(seg.seqno + (len - 1) - rx.nextSeq);
    } else {
      TrimFits(rx, seg);
    }
  }

  lemma AddKeepsValid(rx: Rx, seqno: nat, p: seq<Byte>)
    requires RxValid(rx) && seqno < W32 && seqno != rx.nextSeq && Ahead(rx.nextSeq, seqno) <= rx.avail && |p| < W16
    ensures RxValid(AddOutOfOrder(rx, seqno, p))
      <==> Ahead(rx.nextSeq, seqno) + |p| <= rx.avail || !Storable(rx, seqno, |p|)
  {
    hide U32, SeqWrite;
    if rx.oooLen > 0 && U32(seqno + |p|) == rx.oooStart {
      PrecedesBy(rx, seqno, |p|);
    } else if rx.oooLen > 0 && U32(rx.oooStart + rx.oooLen) == seqno {
      FollowsBy(rx, seqno);
    }
  }

  lemma PrecedesBy(rx: Rx, seqno: nat, n: nat)
    requires RxValid(rx) && rx.oooLen > 0 && seqno < W32 && Ahead(rx.nextSeq, seqno) <= rx.avail && n < W16
    requires U32(seqno + n) == rx.oooStart
    ensures OooGap(rx) == Ahead(rx.nextSeq, seqno) + n
  {
    hide U32;
    U32Near(rx.oooStart - rx.nextSeq);
    U32Near(seqno - rx.nextSeq);
    U32Near(seqno + n);
  }

  lemma FollowsBy(rx: Rx, seqno: nat)
    requires RxValid(rx) && rx.oooLen > 0 && seqno != rx.nextSeq && Ahead(rx.nextSeq, seqno) <= rx.avail
    requires U32(rx.oooStart + rx.oooLen) == seqno
    ensures !Aside(rx) && Ahead(rx.nextSeq, seqno) == OooGap(rx) + rx.oooLen
  {
    hide U32;
    U32Near(rx.oooStart - rx.nextSeq);
    U32Near(seqno - rx.nextSeq);
    U32Near(rx.oooStart + rx.oooLen);
  }

  lemma DeliverKeepsValid(rx: Rx, p: seq<Byte>)
    requires RxValid(rx) && |p| <= rx.avail
    ensures RxValid(Deliver(rx, p).0)
  {
    hide U32, Write, OooDistance, OooGap, Aside, TrimRxBuf;
    if |p| > 0 {
      var rx1 := Advance(rx.(buf := Write(rx.buf, rx.nextPos, p)), |p|);
      OvertakeMergeable(rx, p);
      MergeKeepsValid(rx1);
    }
  }

  lemma MergeKeepsValid(rx: Rx)
    requires Mergeable(rx) && RxValid(rx.(oooLen := 0))
    ensures RxValid(MergeOutOfOrder(rx).0)
  {
    hide U32, TrimRxBuf;
    if rx.oooLen > 0 {
      IntervalTrim(rx);
      DistanceIs(rx);
      U32Near(rx.oooStart - rx.nextSeq);
      U32Near(rx.oooStart);
    }
  }

  /** The registers stay sound on every segment, of the stream or not, except one in the hole that finds
      room in the out-of-order interval: that one makes the interval reach past the window. */
  lemma ReceiveKeepsValidIff(rx: Rx, seg: Segment)
    requires RxValid(rx) && SegmentValid(seg)
    ensures RxValid(Receive(rx, seg).rx) <==> !(InHole(rx, seg) && Storable(rx, seg.seqno, |seg.payload|))
  {
    hide U32, TrimHole, Receive, Storable, RxValid;
    if InHole(rx, seg) {
      HoleKeepsIff(rx, seg);
    } else {
      NoHoleKeeps(rx, seg);
    }
  }

  lemma HoleKeepsIff(rx: Rx, seg: Segment)
    requires RxValid(rx) && SegmentValid(seg) && InHole(rx, seg)
    ensures RxValid(Receive(rx, seg).rx) <==> !Storable(rx, seg.seqno, |seg.payload|)
  {
    hide U32, TrimRxBuf, TrimHole, AddOutOfOrder, Deliver, Storable, RxValid;
    InRange(rx);
    FitsIff(rx, seg);
    TrimInHole(rx.nextSeq, rx.avail, seg.seqno, |seg.payload|);
    HoleSeqno(rx, seg);
    TrimPlaces(rx, seg);
    AddKeepsValid(rx, seg.seqno, seg.payload);
  }

  lemma NoHoleKeeps(rx: Rx, seg: Segment)
    requires RxValid(rx) && SegmentValid(seg) && !InHole(rx, seg)
    ensures RxValid(Receive(rx, seg).rx)
  {
    hide U32, TrimRxBuf, TrimHole, AddOutOfOrder, Deliver, Storable, RxValid;
    InRange(rx);
    FitsIff(rx, seg);
    TrimPlaces(rx, seg);
    var t := TrimRxBuf(rx.nextSeq, rx.avail, seg.seqno, |seg.payload|);
    if t.Keep? {
      var p := seg.payload[t.start..|seg.payload| - t.end];
      var seqno := U32(seg.seqno + t.start);
      if seqno != rx.nextSeq {
        AddKeepsValid(rx, seqno, p);
      } else {
        DeliverKeepsValid(rx, p);
        FinKeepsValid(Deliver(rx, p).0, seg);
      }
    }
  }

  lemma InRange(rx: Rx)
    requires RxValid(rx)
    ensures Sane(rx)
  {
  }

  lemma HoleSeqno(rx: Rx, seg: Segment)
    requires Sane(rx) && SegmentValid(seg) && InHole(rx, seg)
    ensures U32(seg.seqno) == seg.seqno != rx.nextSeq && seg.payload[0..|seg.payload|] == seg.payload
  {
  }

  lemma FinKeepsValid(rx: Rx, seg: Segment)
    requires RxValid(rx)
    ensures RxValid(AcceptFin(rx, 0, seg).rx)
  {
  }

  /** The position of the copy a segment in the hole leads to. */
  function HolePos(rx: Rx, seg: Segment): nat
    requires Sane(rx) && SegmentValid(seg) && InHole(rx, seg)
  {
    HoleAhead(rx, seg);
    SeqPos(rx, seg.seqno)
  }

  lemma HoleAhead(rx: Rx, seg: Segment)
    requires Sane(rx) && SegmentValid(seg) && InHole(rx, seg)
    ensures Ahead(rx.nextSeq, seg.seqno) <= rx.avail
  {
    hide U32;
    U32Near(seg.seqno - rx.nextSeq);
    U32Near(rx.nextSeq + rx.avail);
  }

  /** The copies stay inside the receive buffer on every segment except one in the hole that finds room in
      the out-of-order interval and is longer than what is left of the buffer and the whole buffer. */
  lemma StaysInsideIff(rx: Rx, seg: Segment)
    requires Sane(rx) && SegmentValid(seg)
    ensures ReceivePast(rx, seg) == []
      <==> !(InHole(rx, seg) && Storable(rx, seg.seqno, |seg.payload|) && |seg.payload| > 2 * rx.len - HolePos(rx, seg))
  {
    hide U32, TrimRxBuf, TrimHole, Storable, SeqPos;
    FitsIff(rx, seg);
    TrimPlaces(rx, seg);
    if InHole(rx, seg) {
      TrimInHole(rx.nextSeq, rx.avail, seg.seqno, |seg.payload|);
      HoleSeqno(rx, seg);
    }
  }

  /** 300 bytes at 56 below 2^32, a window of 100 that starts 50 earlier: 250 bytes are copied to the start
      of a buffer of 100. */
  lemma PastExample(rx: Rx, seg: Segment)
    requires rx == Rx(100, 100, 0, W32 - 106, 0, 0, false, rx.buf) && |rx.buf| == 100
    requires seg == Segment(W32 - 56, 0, 0, false, false, false, false, seg.payload) && |seg.payload| == 300
    ensures RxValid(rx) && SegmentValid(seg) && InHole(rx, seg) && Storable(rx, seg.seqno, 300)
    ensures ReceivePast(rx, seg) == seg.payload[150..]
  {
    assert seg.payload[0..300] == seg.payload;
  }
}
