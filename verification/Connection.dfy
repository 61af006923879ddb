/** A whole connection: application library, fast path and the two descriptor queues between them,
    as interleaved steps.  `a`, `w` and `t` are the reference receiver, the reference sender and the
    application's byte stream; the remote stream and both initial sequence numbers are in Env. */
module Connection {
  import opened Arith
  import opened Circular
  import opened FlowReceive
  import opened ReceiveReliability
  import opened FlowTransmit
  import opened TransmitReliability
  import opened FlowState
  import opened LibConn

  datatype Env = Env(s: seq<Byte>, isn: nat, iss: nat)

  datatype World = World(flow: Flow, conn: Conn, atx: seq<AppBump>, arx: seq<Update>,
                         a: Ideal, w: Window, t: seq<Byte>)

  /** Receive and transmit credit carried by queued messages. */
  datatype Amount = Amount(rx: nat, tx: nat)

  function ToFastPath(ms: seq<AppBump>): Amount {
    if |ms| == 0 then Amount(0, 0)
    else var rest := ToFastPath(ms[1..]); Amount(ms[0].rxBump + rest.rx, ms[0].txBump + rest.tx)
  }

  /** Transmit credit carried by the first i+1 messages. */
  function UpTo(ms: seq<AppBump>, i: nat): nat
    requires i < |ms|
  {
    ToFastPath(ms[..i + 1]).tx
  }

  function ToLibrary(ms: seq<Update>): Amount {
    if |ms| == 0 then Amount(0, 0)
    else var rest := ToLibrary(ms[1..]); Amount(ms[0].rxBump + rest.rx, ms[0].txBump + rest.tx)
  }

  lemma {:induction false} ToFastPathAppend(ms: seq<AppBump>, m: AppBump)
    ensures ToFastPath(ms + [m]) == Amount(ToFastPath(ms).rx + m.rxBump, ToFastPath(ms).tx + m.txBump)
  {
    if |ms| > 0 {
      ToFastPathAppend(ms[1..], m);
      assert (ms + [m])[1..] == ms[1..] + [m];
    }
  }

  lemma {:induction false} ToLibraryAppend(ms: seq<Update>, m: Update)
    ensures ToLibrary(ms + [m]) == Amount(ToLibrary(ms).rx + m.rxBump, ToLibrary(ms).tx + m.txBump)
  {
    if |ms| > 0 {
      ToLibraryAppend(ms[1..], m);
      assert (ms + [m])[1..] == ms[1..] + [m];
    }
  }

  /** How many of the updates carry the end of the remote stream. */
  function Ends(ms: seq<Update>): nat {
    if |ms| == 0 then 0 else (if ms[0].fin then 1 else 0) + Ends(ms[1..])
  }

  lemma {:induction false} EndsAppend(ms: seq<Update>, m: Update)
    ensures Ends(ms + [m]) == Ends(ms) + if m.fin then 1 else 0
  {
    if |ms| > 0 {
      EndsAppend(ms[1..], m);
      assert (ms + [m])[1..] == ms[1..] + [m];
    }
  }

  /** Bytes received in order that the library has been told about, and those it has read. */
  function Notified(x: World): int {
    x.a.n - ToLibrary(x.arx).rx
  }

  function Consumed(x: World): int {
    Notified(x) - x.conn.rxbUsed
  }

  /** Fast path registers and both buffers are right; the transmit buffer also holds the bytes the
      application has sent but the fast path has not been told about yet. */
  ghost predicate FlowInv(e: Env, x: World) {
    && FlowValid(x.flow)
    && Refines(x.flow.rx, x.a, e.s, e.isn)
    && TxRefines(x.flow.tx, x.w, x.t, e.iss)
    && Holds(x.flow.tx.buf, x.t, x.w.una, |x.t|)
  }

  /** The receive buffer is no longer than the transmit buffer. */
  predicate Fits(x: World) {
    x.flow.rx.len <= x.flow.tx.len
  }

  /** Credit conservation. */
  predicate CreditInv(x: World) {
    var fp, lib := ToFastPath(x.atx), ToLibrary(x.arx);
    && ConnValid(x.conn)
    && x.conn.txbSent == x.flow.tx.sent + x.flow.tx.avail + x.conn.txbBump + fp.tx + lib.tx
    && x.flow.rx.len == x.flow.rx.avail + x.conn.rxbUsed + x.conn.rxbBump + fp.rx + lib.rx
    && x.w.tail + x.conn.txbBump + fp.tx == |x.t|
  }

  /** Library-side positions: the next byte to send and the next byte to be received. */
  predicate HeadInv(x: World) {
    var c := x.conn;
    if c.status.OpenRequested? then
      && c.txbSent == c.txbAllocated == c.txbBump == c.txbHead == 0 && x.t == [] && !c.txEos
      && c.rxbBump == 0 && !c.bumpPending && x.atx == [] && c.bumpSeq == 0
      && c.rxbHead == c.rxbUsed == Notified(x)
    else
      && c.status.Open? && c.rxbLen == x.flow.rx.len && c.txbLen == x.flow.tx.len
      && c.rxbLen > 0 && c.txbLen > 0
      && c.txbHead == Cell(|x.t|, c.txbLen)
      && Notified(x) >= 0
      && c.rxbHead <= c.rxbLen && Cell(c.rxbHead, c.rxbLen) == Cell(Notified(x), c.rxbLen)
  }

  /** Pending bumps are flagged; sequence numbers of queued bumps are consecutive. */
  predicate SeqInv(x: World) {
    var c := x.conn;
    && (c.txbBump > 0 ==> c.bumpPending)
    && (c.status.Open? && c.rxbBump > c.rxbLen / 4 ==> c.bumpPending)
    && |x.atx| <= c.bumpSeq
    && (forall i :: 0 <= i < |x.atx| ==> x.atx[i].seqno == U16(c.bumpSeq - |x.atx| + i))
    && (if c.bumpSeq == |x.atx| then x.flow.bumpSeq == 0 else x.flow.bumpSeq == U16(c.bumpSeq - |x.atx| - 1))
  }

  /** The stream ends with the dummy byte exactly when the end-of-stream mark is set, and the mark
      travels with the bump that hands over the dummy byte. */
  predicate FinInv(x: World) {
    var c := x.conn;
    && (x.w.fin <==> c.txEosAlloc && x.w.tail == |x.t|)
    && (forall i :: 0 <= i < |x.atx| ==>
         (x.atx[i].done <==> c.txEosAlloc && x.w.tail + UpTo(x.atx, i) == |x.t|))
    && (c.txEosAlloc ==> |x.t| > 0)
    && (c.txEosAck ==> c.txEosAlloc && c.txbSent == 0)
    && (c.rxClosed ==> x.a.fin)
    && (forall i :: 0 <= i < |x.arx| ==> (x.arx[i].fin ==> x.a.fin))
  }

  /** The end of the remote stream, once received, is in exactly one place: noted by the library or in one queued update,
      the last one as long as the connection is not open. */
  predicate EndInv(x: World) {
    && Ends(x.arx) + (if x.conn.rxClosed then 1 else 0) == (if x.a.fin then 1 else 0)
    && (x.conn.status.OpenRequested? && x.a.fin && |x.arx| > 0 ==> x.arx[|x.arx| - 1].fin)
  }

  /** The end-of-stream mark is postponed only while the transmit buffer is full. */
  predicate EosInv(c: Conn) {
    c.txEos && !c.txEosAlloc ==> c.txbSent == c.txbLen
  }

  ghost predicate CoreInv(e: Env, x: World) {
    FlowInv(e, x) && CreditInv(x) && HeadInv(x) && SeqInv(x) && FinInv(x) && EndInv(x)
  }

  ghost predicate Base(e: Env, x: World) {
    CoreInv(e, x) && EosInv(x.conn)
  }

  ghost predicate Inv(e: Env, x: World) {
    Base(e, x) && Fits(x)
  }

  datatype Step =
    | Arrive(seg: Segment, o: nat)        // fast path: a packet comes in
    | SendSegment                         // fast path: the queue manager fires the flow
    | Retransmit                          // fast path: the slow path detected a timeout
    | TakeBump                            // fast path: next entry of the queue from the library
    | TakeUpdate(outn: nat)               // library: next entry of the queue from the fast path
    | Opened(outn: nat)                   // library: connection confirmed by the slow path
    | Alloc(len: nat)                     // application: reserve transmit space
    | Fill(d: nat, bytes: seq<Byte>)      // application: write into reserved space
    | SendBytes(len: nat)                 // application: hand over reserved bytes
    | Close                               // application: end of stream
    | ReadBytes(len: nat)                 // application: read and free received bytes
    | FlushBumps                          // library: publish pending bumps

  datatype Output = Nothing | Emitted(out: Sent) | Refused | Events(evs: seq<Event>) | Bytes(data: seq<Byte>)
                  | Granted(grant: Grant)

  /** What each step asks of its environment. */
  ghost predicate Enabled(e: Env, x: World, st: Step) {
    match st
    case Arrive(seg, o) => Arrivable(x.flow.rx, x.a, e.s, e.isn, seg, o)
    case TakeBump => |x.atx| > 0
    case TakeUpdate(_) => |x.arx| > 0
    case Opened(_) => x.conn.status.OpenRequested?
    case Fill(d, bytes) => x.conn.status.Open? && d + |bytes| <= x.conn.txbAllocated
    case ReadBytes(len) => x.conn.status.Open? && len <= x.conn.rxbUsed
    case FlushBumps => x.conn.status.Open? && x.conn.bumpPending
    case Alloc(_) => x.conn.status.Open?
    case SendBytes(_) => x.conn.status.Open?
    case Close => x.conn.status.Open?
    case _ => true
  }

  /** The reference sender after a packet. */
  function WindowAfter(x: World, e: Env, seg: Segment): Window
    requires TxValid(x.flow.tx) && SegmentValid(seg)
  {
    var r := ProcessAck(x.flow.tx, seg);
    if r.bump > 0 then
      var off := AckOffset(x.w, e.iss, seg.ackno);
      x.w.(una := off, nxt := Max(x.w.nxt, off))
    else if r.reset then x.w.(nxt := x.w.una)
    else x.w
  }

  ghost function ArriveStep(e: Env, x: World, seg: Segment, o: nat): World
    requires FlowInv(e, x) && Arrivable(x.flow.rx, x.a, e.s, e.isn, seg, o)
  {
    var r := Packet(x.flow, seg);
    if r.toKernel then x.(flow := r.flow)
    else
      var w := WindowAfter(x, e, seg);
      var a := if ProcessAck(x.flow.tx, seg).reset then x.a else IdealReceive(x.a, o, |seg.payload|, seg.fin);
      var arx := if r.rxBump != 0 || r.txBump != 0 || r.finBump
                 then x.arx + [Update(r.rxBump, r.txBump, r.finBump)] else x.arx;
      x.(flow := r.flow, a := a, w := w, arx := arx)
  }

  ghost function SendStep(x: World): (World, Output)
    requires TxValid(x.flow.tx)
  {
    match Send(x.flow.tx)
    case Idle => (x, Nothing)
    case Sending(tx, out) =>
      (x.(flow := x.flow.(tx := tx), w := x.w.(nxt := x.w.nxt + Min(Sendable(x.flow.tx), TCP_MSS))), Emitted(out))
  }

  ghost function RetransmitStep(x: World): World
    requires TxValid(x.flow.tx)
  {
    x.(flow := x.flow.(tx := FlowTransmit.Retransmit(x.flow.tx)), w := x.w.(nxt := x.w.una))
  }

  ghost function BumpStep(x: World): (World, Output)
    requires |x.atx| > 0
  {
    var m := x.atx[0];
    var r := HandleBump(x.flow, m);
    if r.accepted then
      (x.(flow := r.flow, atx := x.atx[1..], a := x.a.(avail := x.a.avail + m.rxBump),
          w := x.w.(tail := x.w.tail + m.txBump, fin := x.w.fin || m.done)), Nothing)
    else (x.(flow := r.flow, atx := x.atx[1..]), Refused)
  }

  /** Bytes that became part of the application's stream: what the transmit buffer holds at the
      library's send position. */
  ghost function Committed(x: World, n: nat): seq<Byte>
    requires x.conn.txbHead < |x.flow.tx.buf| && n <= |x.flow.tx.buf|
  {
    Read(x.flow.tx.buf, x.conn.txbHead, n)
  }

  ghost function UpdateStep(x: World, outn: nat): (World, Output)
    requires |x.arx| > 0 && ConnValid(x.conn) && UpdateValid(x.conn, x.arx[0])
    requires x.conn.txbHead < |x.flow.tx.buf|
  {
    match ConnUpdate(x.conn, x.arx[0], outn)
    case Retry => (x, Nothing)
    case Updated(c, evs) =>
      (x.(conn := c, arx := x.arx[1..],
          t := if c.txEosAlloc && !x.conn.txEosAlloc then x.t + Committed(x, 1) else x.t), Events(evs))
  }

  ghost function OpenedStep(x: World, outn: nat): (World, Output) {
    match ConnOpened(x.conn, true, x.flow.rx.len, x.flow.tx.len, outn)
    case Retry => (x, Nothing)
    case Updated(c, evs) => (x.(conn := c), Events(evs))
  }

  ghost function FillStep(x: World, d: nat, bytes: seq<Byte>): World
    requires x.conn.txbHead < x.conn.txbLen == |x.flow.tx.buf| && d + |bytes| <= x.conn.txbLen
  {
    var buf := Write(x.flow.tx.buf, Bump(x.conn.txbHead, d, x.conn.txbLen), bytes);
    x.(flow := x.flow.(tx := x.flow.tx.(buf := buf)))
  }

  ghost function SendBytesStep(x: World, len: nat): World
    requires ConnValid(x.conn) && x.conn.status.Open? && x.conn.txbLen == |x.flow.tx.buf|
  {
    var (c, ok) := TxSend(x.conn, len);
    if ok then x.(conn := c, t := x.t + Committed(x, len)) else x
  }

  ghost function CloseStep(x: World): World
    requires ConnValid(x.conn) && x.conn.status.Open? && x.conn.txbLen == |x.flow.tx.buf|
  {
    var (c, ok) := TxClose(x.conn);
    if ok && c.txEosAlloc then x.(conn := c, t := x.t + Committed(x, 1)) else x.(conn := c)
  }

  /** Position of the oldest unread byte: rxbUsed cells behind the receive position. */
  function UnreadPos(c: Conn): nat
    requires 0 < c.rxbLen && c.rxbUsed <= c.rxbLen
  {
    Cell(c.rxbHead + c.rxbLen - c.rxbUsed, c.rxbLen)
  }

  ghost function ReadStep(x: World, len: nat): (World, Output)
    requires 0 < x.conn.rxbLen == |x.flow.rx.buf| && len <= x.conn.rxbUsed <= x.conn.rxbLen
  {
    (x.(conn := RxDone(x.conn, len).0), Bytes(Read(x.flow.rx.buf, UnreadPos(x.conn), len)))
  }

  ghost function FlushStep(x: World): World {
    var (c, m) := Flush(x.conn);
    x.(conn := c, atx := x.atx + [m])
  }
}
