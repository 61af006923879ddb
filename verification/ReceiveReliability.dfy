/** Receive reliability: the 32-bit, circular-buffer receiver refines a receiver over unbounded
    stream offsets, and everything it hands to the application is the sender's stream in order. */
module ReceiveReliability {
  import opened Arith
  import opened Circular
  import opened TcpCommon
  import opened FlowReceive

  /** Reference receiver: n bytes received in order, window size, stored interval [lo, hi) of
      stream offsets (lo == hi == 0 when empty), end of stream seen. `stale` while an interval left over
      from another flow is still there: it keeps out-of-order payload and an empty stream's FIN from being
      taken, until the first in-order byte makes it go away. */
  datatype Ideal = Ideal(n: nat, avail: nat, lo: nat, hi: nat, fin: bool, stale: bool)

  /** The offset the receiver expects next; FIN occupies one sequence number. */
  function Expected(a: Ideal): nat {
    a.n + if a.fin then 1 else 0
  }

  predicate IdealOk(a: Ideal) {
    && a.lo <= a.hi && (a.lo < a.hi ==> a.n < a.lo && a.hi <= a.n + a.avail)
    && (a.stale ==> a.n == a.lo == a.hi == 0 && !a.fin)
  }

  /** Reference behaviour for a segment covering stream offsets [o, o+len). */
  function IdealReceive(a: Ideal, o: nat, len: nat, fin: bool): Ideal
    requires IdealOk(a)
  {
    var m := Expected(a);
    if o + len < m || o > m + a.avail then a
    else
      var s, e := Max(o, m), Min(o + len, m + a.avail);
      if s != m then IdealStore(a, s, e)
      else if a.fin || (a.stale && s == e) then a
      else
        var b := if s < e then IdealAdvance(a.(stale := false), e) else a;
        if fin && b.n == o + len && b.lo == b.hi then b.(fin := true) else b
  }

  /** Only payload that starts, precedes or follows the stored interval is kept. */
  function IdealStore(a: Ideal, s: nat, e: nat): Ideal {
    if s == e || a.stale then a
    else if a.lo == a.hi then a.(lo := s, hi := e)
    else if e == a.lo then a.(lo := s)
    else if s == a.hi then a.(hi := e)
    else a
  }

  /** The stream advances to e; an interval it reaches is joined, one it has passed is dropped.
      Passing is judged on the interval length modulo 2^16, so an interval longer than that may
      be dropped (to be sent again) when the advance reaches into it. */
  function IdealAdvance(a: Ideal, e: nat): Ideal
    requires IdealOk(a) && a.n <= e <= a.n + a.avail
  {
    IdealMerge(a.(n := e, avail := a.avail - (e - a.n), lo := 0, hi := 0), a.lo, a.hi)
  }

  function IdealMerge(b: Ideal, lo: nat, hi: nat): Ideal
    requires lo <= hi && (lo < hi ==> hi <= b.n + b.avail)
  {
    if lo == hi then b
    else if b.n < lo then b.(lo := lo, hi := hi)
    else if lo + U16(hi - lo) < b.n || hi <= b.n then b
    else b.(n := hi, avail := b.avail - (hi - b.n))
  }

  /** Registers and buffer agree with having received the first n bytes of stream s in order. */
  ghost predicate InOrderPart(rx: Rx, a: Ideal, s: seq<Byte>, isn: nat) {
    && 0 < rx.len == |rx.buf| < HALF32
    && rx.avail == a.avail <= rx.len && rx.len - a.avail <= a.n <= |s|
    && rx.nextPos == Cell(a.n, rx.len)
    && rx.nextSeq == U32(isn + Expected(a))
    && Holds(rx.buf, s, a.n - (rx.len - a.avail), a.n)
    && rx.fin == a.fin
  }

  /** The refinement relation: registers are the images of the reference offsets modulo 2^32 and
      modulo the buffer length, and the buffer holds the stream bytes of every received offset
      the application may still read or that is stored out of order. */
  ghost predicate Refines(rx: Rx, a: Ideal, s: seq<Byte>, isn: nat) {
    && InOrderPart(rx, a, s, isn)
    && IdealOk(a)
    && (a.fin ==> a.n == |s| && a.lo == a.hi)
    && rx.oooStart < W32 && IntervalHeld(rx, a, s, isn)
  }

  ghost predicate IntervalHeld(rx: Rx, a: Ideal, s: seq<Byte>, isn: nat) {
    if a.stale then rx.oooLen > 0 && Aside(rx)
    else
      && rx.oooLen == a.hi - a.lo
      && (a.lo < a.hi ==> rx.oooStart == U32(isn + a.lo) && Holds(rx.buf, s, a.lo, a.hi))
  }

  /** The segment carries bytes of the sender's stream s, starting at offset o, and its end if FIN is set. */
  ghost predicate DataFrom(seg: Segment, s: seq<Byte>, o: nat) {
    && o + |seg.payload| <= |s|
    && seg.payload == s[o..o + |seg.payload|]
    && (seg.fin ==> o + |seg.payload| == |s|)
  }

  /** A bare acknowledgement, sent after the sender's FIN, which took one sequence number. */
  predicate AfterFin(seg: Segment, n: nat, o: nat) {
    o == n + 1 && seg.payload == [] && !seg.fin
  }

  /** A segment the sender of stream s may send, with sequence number for stream offset o. */
  ghost predicate CutFrom(seg: Segment, s: seq<Byte>, isn: nat, o: nat) {
    && SegmentValid(seg)
    && seg.seqno == U32(isn + o)
    && (DataFrom(seg, s, o) || AfterFin(seg, |s|, o))
  }

  /** The segments the theorems cover: cut from the stream, not so old or new that the 32-bit
      circle confuses them with others, and outside the trimming hole. */
  ghost predicate Arrivable(rx: Rx, a: Ideal, s: seq<Byte>, isn: nat, seg: Segment, o: nat) {
    && CutFrom(seg, s, isn, o)
    && Unaliased(o, |seg.payload|, Expected(a), a.avail)
    && !InHole(rx, seg)
  }

  /** A segment inside the advertised window is always outside the hole. */
  lemma AdvertisedNotInHole(rx: Rx, a: Ideal, s: seq<Byte>, isn: nat, seg: Segment, o: nat)
    requires Refines(rx, a, s, isn) && CutFrom(seg, s, isn, o)
    requires Unaliased(o, |seg.payload|, Expected(a), a.avail)
    requires o + |seg.payload| <= Expected(a) + a.avail
    ensures Arrivable(rx, a, s, isn, seg, o)
  {
    InsideWindowNoHole(isn, o, |seg.payload|, Expected(a), a.avail);
  }

  /** Sequence number and cell of a stream offset inside the window. */
  lemma Locate(rx: Rx, isn: nat, n: nat, o: nat)
    requires 0 < rx.len && rx.nextSeq == U32(isn + n) && rx.nextPos == Cell(n, rx.len)
    requires n <= o <= n + rx.len < n + W32
    ensures Ahead(rx.nextSeq, U32(isn + o)) == o - n
    ensures Bump(rx.nextPos, o - n, rx.len) == Cell(o, rx.len)
  {
    hide U32, Cell;
    U32Absorb(isn + n, o - n);
    AheadBy(rx.nextSeq, o - n);
    assert isn + n + (o - n) == isn + o;
    CellBump(n, o - n, rx.len);
  }

  lemma RefinesValid(rx: Rx, a: Ideal, s: seq<Byte>, isn: nat)
    requires Refines(rx, a, s, isn)
    ensures RxValid(rx)
    ensures a.lo < a.hi ==> OooGap(rx) == a.lo - a.n
  {
    if a.lo < a.hi {
      Locate(rx, isn, a.n, a.lo);
    }
  }

  /** Writing window bytes at their place keeps every byte the receiver relies on. */
  lemma StoreBuffer(rx: Rx, a: Ideal, s: seq<Byte>, isn: nat, o: nat, p: seq<Byte>, b: seq<Byte>)
    requires Refines(rx, a, s, isn) && !a.fin && !a.stale
    requires a.n <= o && o + |p| <= a.n + a.avail && o + |p| <= |s| && p == s[o..o + |p|]
    requires Written(rx.buf, Cell(o, rx.len), p, b)
    ensures Holds(b, s, o, o + |p|)
    ensures Holds(b, s, a.n - (rx.len - a.avail), a.n)
    ensures a.lo < a.hi ==> Holds(b, s, a.lo, a.hi)
  {
    WriteHolds(rx.buf, s, o, p, b);
    WriteKeeps(rx.buf, s, o, p, b, a.n - (rx.len - a.avail), a.n);
    if a.lo < a.hi {
      WriteKeeps(rx.buf, s, o, p, b, a.lo, a.hi);
    }
  }

  /** The interval registers follow the reference when [o, o+len) is stored. */
  lemma IntervalRefines(rx: Rx, a: Ideal, s: seq<Byte>, isn: nat, o: nat, len: nat, b: seq<Byte>)
    requires Refines(rx, a, s, isn) && !a.fin && !a.stale && |b| == rx.len
    requires 0 < len && a.n < o && o + len <= a.n + a.avail && o + len <= |s|
    requires Holds(b, s, o, o + len) && Holds(b, s, a.n - (rx.len - a.avail), a.n)
    requires a.lo < a.hi ==> Holds(b, s, a.lo, a.hi)
    ensures Storable(rx, U32(isn + o), len) <==> IdealStore(a, o, o + len) != a
    ensures Storable(rx, U32(isn + o), len) ==>
      Refines(GrowInterval(rx, U32(isn + o), len).(buf := b), IdealStore(a, o, o + len), s, isn)
  {
    hide U32, Cell;
    if a.lo < a.hi {
      AdjacentIff(isn, o + len, a.lo, a.n);
      AdjacentIff(isn, a.hi, o, a.n);
      assert U32(U32(isn + o) + len) == U32(isn + (o + len)) by { U32Absorb(isn + o, len); }
      assert U32(rx.oooStart + rx.oooLen) == U32(isn + a.hi) by { U32Absorb(isn + a.lo, a.hi - a.lo); }
    }
  }

  /** Storing [o, o+|p|) of the stream in the out-of-order interval. */
  lemma StoreRefines(rx: Rx, a: Ideal, s: seq<Byte>, isn: nat, o: nat, p: seq<Byte>)
    requires RxValid(rx) && Refines(rx, a, s, isn) && !a.fin && !a.stale
    requires a.n < o && o + |p| <= a.n + a.avail && o + |p| <= |s| && p == s[o..o + |p|]
    requires Ahead(rx.nextSeq, U32(isn + o)) == o - a.n
    ensures Refines(AddOutOfOrder(rx, U32(isn + o), p), IdealStore(a, o, o + |p|), s, isn)
  {
    hide U32, Cell, SeqWrite, Storable, GrowInterval, Holds, IdealOk;
    if |p| > 0 {
      SeqWriteWritten(rx, isn, a.n, o, p);
      var b := SeqWrite(rx, U32(isn + o), p);
      StoreBuffer(rx, a, s, isn, o, p, b);
      IntervalRefines(rx, a, s, isn, o, |p|, b);
    } else {
      assert !Storable(rx, U32(isn + o), 0) by { EmptyNotStorable(rx, U32(isn + o)); }
    }
  }

  lemma EmptyNotStorable(rx: Rx, seqno: nat)
    ensures !Storable(rx, seqno, 0)
  {
  }

  lemma NothingAdded(rx: Rx, seqno: nat)
    requires Sane(rx) && Ahead(rx.nextSeq, seqno) <= rx.avail
    ensures AddOutOfOrder(rx, seqno, []) == rx
  {
    hide U32;
  }

  lemma SeqWriteWritten(rx: Rx, isn: nat, n: nat, o: nat, p: seq<Byte>)
    requires Sane(rx) && rx.nextSeq == U32(isn + n) && rx.nextPos == Cell(n, rx.len)
    requires n <= o && o + |p| <= n + rx.avail && Ahead(rx.nextSeq, U32(isn + o)) == o - n
    ensures Written(rx.buf, Cell(o, rx.len), p, SeqWrite(rx, U32(isn + o), p))
  {
    hide U32, Cell, Write;
    Locate(rx, isn, n, o);
    WriteWritten(rx.buf, Cell(o, rx.len), p);
  }

  lemma AdjacentIff(isn: nat, x: nat, y: nat, n: nat)
    requires n <= x < n + HALF32 && n <= y < n + HALF32
    ensures U32(isn + x) == U32(isn + y) <==> x == y
  {
    if U32(isn + x) == U32(isn + y) {
      U32Injective(isn + x, isn + y);
    }
  }

  /** The in-order advance, before the out-of-order interval is reconsidered. */
  lemma AdvanceRefines(rx: Rx, a: Ideal, s: seq<Byte>, isn: nat, d: nat)
    requires InOrderPart(rx, a, s, isn) && !a.fin
    requires d <= a.avail && Holds(rx.buf, s, a.n, a.n + d)
    ensures InOrderPart(Advance(rx, d), a.(n := a.n + d, avail := a.avail - d), s, isn)
    ensures Read(rx.buf, rx.nextPos, d) == s[a.n..a.n + d]
  {
    hide U32, Cell, Read;
    CellBump(a.n, d, rx.len);
    U32Absorb(isn + a.n, d);
    ReadHolds(rx.buf, s, a.n, d);
  }

  /** Reconsidering an interval [lo, hi) that the in-order advance may have reached. */
  lemma MergeRefines(rx: Rx, b: Ideal, s: seq<Byte>, isn: nat, lo: nat, hi: nat)
    requires InOrderPart(rx, b, s, isn) && !b.fin && !b.stale && b.lo == b.hi
    requires lo <= hi && Mergeable(rx) && rx.oooLen == hi - lo
    requires lo < hi ==> OooDistance(rx) == lo - b.n && hi <= b.n + b.avail
    requires lo < hi ==> rx.oooStart == U32(isn + lo) && Holds(rx.buf, s, lo, hi)
    ensures var r := MergeOutOfOrder(rx);
      && r.0.buf == rx.buf && r.0.len == rx.len
      && Refines(r.0, IdealMerge(b, lo, hi), s, isn)
      && r.1 == IdealMerge(b, lo, hi).n - b.n
  {
    hide U32, Cell, Read, OooDistance, TrimRxBuf;
    if lo < hi {
      IntervalTrim(rx);
      U32Absorb(isn + lo, Max(0, b.n - lo));
      if lo <= b.n < hi {
        AdvanceRefines(rx, b, s, isn, hi - b.n);
      }
      if b.n < lo {
        AdjacentIff(isn, b.n, lo, b.n);
      }
    }
  }

  /** The state in which the out-of-order interval is reconsidered. */
  function Overtaken(rx: Rx, p: seq<Byte>): Rx
    requires Sane(rx) && |p| <= rx.avail
  {
    Advance(rx.(buf := Write(rx.buf, rx.nextPos, p)), |p|)
  }

  lemma OvertakeRefines(rx: Rx, a: Ideal, s: seq<Byte>, isn: nat, p: seq<Byte>)
    requires RxValid(rx) && Refines(rx, a, s, isn) && !a.fin && !a.stale
    requires 0 < |p| <= a.avail && a.n + |p| <= |s| && p == s[a.n..a.n + |p|]
    ensures var rx1 := Overtaken(rx, p);
      && InOrderPart(rx1, a.(n := a.n + |p|, avail := a.avail - |p|, lo := 0, hi := 0), s, isn)
      && Holds(rx1.buf, s, a.n, a.n + |p|)
      && rx1.len == rx.len && Mergeable(rx1) && rx1.oooLen == a.hi - a.lo
      && (a.lo < a.hi ==> OooDistance(rx1) == a.lo - (a.n + |p|))
      && (a.lo < a.hi ==> rx1.oooStart == U32(isn + a.lo) && Holds(rx1.buf, s, a.lo, a.hi))
  {
    hide U32, Cell, Write, Read, Holds, Written, OooGap, OooDistance, Mergeable;
    var buf := Write(rx.buf, rx.nextPos, p);
    WriteWritten(rx.buf, rx.nextPos, p);
    StoreBuffer(rx, a, s, isn, a.n, p, buf);
    AdvanceRefines(rx.(buf := buf), a, s, isn, |p|);
    OvertakeMergeable(rx, p);
    RefinesValid(rx, a, s, isn);
  }

  /** Delivering in-order payload follows the reference, and the bytes the application is told
      about are the next bytes of the stream. */
  lemma DeliverRefines(rx: Rx, a: Ideal, s: seq<Byte>, isn: nat, p: seq<Byte>)
    requires RxValid(rx) && Refines(rx, a, s, isn) && !a.fin && !a.stale
    requires 0 < |p| <= a.avail && a.n + |p| <= |s| && p == s[a.n..a.n + |p|]
    ensures var r, a' := Deliver(rx, p), IdealAdvance(a, a.n + |p|);
      Follows(rx, a, Received(r.0, r.1, false, true, true), a', s, isn)
  {
    hide U32, Cell, Read, Holds, MergeOutOfOrder, OooDistance, OooGap, Mergeable, Advance, Write;
    OvertakeRefines(rx, a, s, isn, p);
    var rx1, b := Overtaken(rx, p), a.(n := a.n + |p|, avail := a.avail - |p|, lo := 0, hi := 0);
    MergeRefines(rx1, b, s, isn, a.lo, a.hi);
    var a' := IdealAdvance(a, a.n + |p|);
    if a'.n > a.n + |p| {
      HoldsJoin(rx1.buf, s, a.n, a.n + |p|, a.lo, a.hi);
    }
    ReadHolds(rx1.buf, s, a.n, a'.n - a.n);
  }

  /** Two held stretches that overlap or touch hold their union. */
  lemma HoldsJoin(b: seq<Byte>, s: seq<Byte>, lo: int, mid: int, mid': int, hi: int)
    requires Holds(b, s, lo, mid) && Holds(b, s, mid', hi) && mid' <= mid && lo <= hi
    ensures Holds(b, s, lo, hi)
  {
  }

  /** Result r of the concrete receiver in state rx matches the reference going from a to a': the
      registers still refine it, what is announced to the application is the next piece of the
      stream, and end of stream is announced exactly when the reference sees it, which is only
      once every byte of the stream has been received. */
  ghost predicate Follows(rx: Rx, a: Ideal, r: Received, a': Ideal, s: seq<Byte>, isn: nat) {
    && Refines(r.rx, a', s, isn)
    && r.rx.len == rx.len && rx.nextPos < |r.rx.buf|
    && a.n <= a'.n <= |s| && r.bump == a'.n - a.n <= |r.rx.buf|
    && Read(r.rx.buf, rx.nextPos, r.bump) == s[a.n..a'.n]
    && (r.finBump <==> !a.fin && a'.fin)
    && (a'.fin ==> a'.n == |s|)
  }

  /** What trimming leaves of the segment, in stream offsets. */
  lemma TrimmedPayload(rx: Rx, a: Ideal, s: seq<Byte>, isn: nat, seg: Segment, o: nat)
    requires RxValid(rx) && Refines(rx, a, s, isn) && Arrivable(rx, a, s, isn, seg, o)
    ensures var m, len := Expected(a), |seg.payload|;
      && var t := TrimRxBuf(rx.nextSeq, rx.avail, seg.seqno, len);
      && (t.Drop? <==> o + len < m || o > m + a.avail)
      && (t.Keep? ==> var s0, e := Max(o, m), Min(o + len, m + a.avail);
          && t.start + t.end <= len && s0 <= e <= |s| + 1
          && U32(seg.seqno + t.start) == U32(isn + s0)
          && Ahead(rx.nextSeq, U32(isn + s0)) == s0 - m
          && (e <= |s| ==> seg.payload[t.start..len - t.end] == s[s0..e])
          && len - t.end - t.start == e - s0)
  {
    hide U32, Cell, Holds, TrimRxBuf, TrimHole, Max, Min;
    var m, len := Expected(a), |seg.payload|;
    TrimmedSpan(isn, o, len, m, a.avail);
    TrimmedBytes(rx, a, s, isn, seg, o);
  }

  lemma TrimmedSpan(isn: nat, o: nat, len: nat, m: nat, avail: nat)
    requires len < W16 && Unaliased(o, len, m, avail) && !TrimHole(U32(isn + m), avail, U32(isn + o), len)
    ensures var t := TrimRxBuf(U32(isn + m), avail, U32(isn + o), len);
      && (t.Drop? <==> o + len < m || o > m + avail)
      && (t.Keep? ==> var s0, e := Max(o, m), Min(o + len, m + avail);
          && t.start == s0 - o && t.end == o + len - e && s0 <= e
          && U32(U32(isn + o) + t.start) == U32(isn + s0)
          && Ahead(U32(isn + m), U32(isn + s0)) == s0 - m)
  {
    hide U32, TrimRxBuf, TrimHole;
    TrimOffsets(isn, o, len, m, avail);
    if !(o + len < m || o > m + avail) {
      var s0 := Max(o, m);
      U32Absorb(isn + o, s0 - o);
      U32Absorb(isn + m, s0 - m);
      AheadBy(U32(isn + m), s0 - m);
    }
  }

  lemma TrimmedBytes(rx: Rx, a: Ideal, s: seq<Byte>, isn: nat, seg: Segment, o: nat)
    requires Refines(rx, a, s, isn) && Arrivable(rx, a, s, isn, seg, o)
    ensures var s0, e := Max(o, Expected(a)), Min(o + |seg.payload|, Expected(a) + a.avail);
      s0 <= e ==> e <= |s| + 1 && (e <= |s| ==> seg.payload[s0 - o..e - o] == s[s0..e])
  {
    hide U32, Cell, Holds, TrimHole, Unaliased, IdealOk, InOrderPart;
    var s0, e := Max(o, Expected(a)), Min(o + |seg.payload|, Expected(a) + a.avail);
    if s0 <= e <= |s| {
      Subslice(seg.payload, s, o, s0 - o, e - o);
    }
  }

  lemma Subslice(p: seq<Byte>, s: seq<Byte>, o: nat, i: nat, j: nat)
    requires o + |p| <= |s| && p == s[o..o + |p|] && i <= j <= |p|
    ensures p[i..j] == s[o + i..o + j]
  {
    forall k | 0 <= k < j - i ensures p[i..j][k] == s[o + i..o + j][k] {
      assert p[i + k] == s[o..o + |p|][i + k];
    }
  }

  lemma OutOfOrderFollows(rx: Rx, a: Ideal, s: seq<Byte>, isn: nat, o: nat, p: seq<Byte>)
    requires RxValid(rx) && Refines(rx, a, s, isn) && !a.fin && !a.stale
    requires a.n < o && o + |p| <= a.n + a.avail && o + |p| <= |s| && p == s[o..o + |p|]
    requires Ahead(rx.nextSeq, U32(isn + o)) == o - a.n
    ensures U32(isn + o) != rx.nextSeq
    ensures Follows(rx, a, Received(AddOutOfOrder(rx, U32(isn + o), p), 0, false, true, false),
                    IdealStore(a, o, o + |p|), s, isn)
  {
    hide U32, Cell, Holds, AddOutOfOrder, IdealOk;
    StoreRefines(rx, a, s, isn, o, p);
    AdjacentIff(isn, o, a.n, a.n);
    AddKeepsLen(rx, U32(isn + o), p);
  }

  lemma AddKeepsLen(rx: Rx, seqno: nat, p: seq<Byte>)
    requires RxValid(rx) && seqno < W32 && Ahead(rx.nextSeq, seqno) <= rx.avail && |p| <= rx.len
    ensures AddOutOfOrder(rx, seqno, p).len == rx.len
  {
  }

  /** FIN handling after an in-order segment of stream offsets [o, o+len). */
  lemma FinFollows(rx: Rx, a: Ideal, rx1: Rx, b: Ideal, s: seq<Byte>, isn: nat, bump: nat, seg: Segment, o: nat)
    requires Follows(rx, a, Received(rx1, bump, false, true, true), b, s, isn) && !a.fin && !b.fin && !b.stale
    requires CutFrom(seg, s, isn, o) && -W32 < o + |seg.payload| - b.n < W32
    ensures Follows(rx, a, AcceptFin(rx1, bump, seg),
      if seg.fin && b.n == o + |seg.payload| && b.lo == b.hi then b.(fin := true) else b, s, isn)
  {
    hide U32, Cell, Holds, Read;
    var e := o + |seg.payload|;
    U32Absorb(isn + b.n, 1);
    U32Absorb(isn + o, |seg.payload|);
    if rx1.nextSeq == U32(isn + e) {
      U32Injective(isn + e, isn + b.n);
    }
  }

  lemma InOrderFollows(rx: Rx, a: Ideal, s: seq<Byte>, isn: nat, seg: Segment, o: nat, p: seq<Byte>)
    requires RxValid(rx) && Refines(rx, a, s, isn) && !a.fin && !a.stale
    requires CutFrom(seg, s, isn, o) && Unaliased(o, |seg.payload|, a.n, a.avail)
    requires |p| <= a.avail && a.n + |p| <= |s| && p == s[a.n..a.n + |p|]
    ensures var b := if |p| > 0 then IdealAdvance(a, a.n + |p|) else a;
      Follows(rx, a, AcceptFin(Deliver(rx, p).0, Deliver(rx, p).1, seg),
        if seg.fin && b.n == o + |seg.payload| && b.lo == b.hi then b.(fin := true) else b, s, isn)
  {
    hide U32, Cell, Holds, Read, AcceptFin;
    if |p| > 0 {
      DeliverRefines(rx, a, s, isn, p);
      FinFollows(rx, a, Deliver(rx, p).0, IdealAdvance(a, a.n + |p|), s, isn, Deliver(rx, p).1, seg, o);
    } else {
      ReadHolds(rx.buf, s, a.n, 0) by { assert Holds(rx.buf, s, a.n, a.n) by { HoldsNothing(rx.buf, s, a.n); } }
      FinFollows(rx, a, rx, a, s, isn, 0, seg, o);
    }
  }

  /** An interval left over from another flow takes no part: out-of-order payload does not touch it ... */
  lemma StaleIgnores(rx: Rx, a: Ideal, s: seq<Byte>, isn: nat, seqno: nat, p: seq<Byte>)
    requires RxValid(rx) && Refines(rx, a, s, isn) && a.stale && seqno < W32 && seqno != rx.nextSeq
    requires Ahead(rx.nextSeq, seqno) + |p| <= rx.avail
    ensures AddOutOfOrder(rx, seqno, p) == rx
  {
    hide U32, Cell, Holds, SeqWrite;
    U32Near(rx.oooStart - rx.nextSeq);
    U32Near(seqno - rx.nextSeq);
    U32Near(seqno + |p|);
    U32Near(rx.oooStart + rx.oooLen);
  }

  /** ... and the first in-order bytes make it go away, as if it had never been there. */
  lemma StaleDropped(rx: Rx, p: seq<Byte>)
    requires RxValid(rx) && rx.oooLen > 0 && Aside(rx) && 0 < |p| <= rx.avail
    ensures Deliver(rx, p) == Deliver(rx.(oooLen := 0), p)
  {
    hide U32, Write, TrimRxBuf, OooDistance, Aside;
    OvertakeMergeable(rx, p);
    IntervalTrim(Advance(rx.(buf := Write(rx.buf, rx.nextPos, p)), |p|));
  }

  lemma StaleFollows(rx: Rx, a: Ideal, s: seq<Byte>, isn: nat, seg: Segment, o: nat, p: seq<Byte>)
    requires RxValid(rx) && Refines(rx, a, s, isn) && a.stale
    requires CutFrom(seg, s, isn, o) && Unaliased(o, |seg.payload|, a.n, a.avail)
    requires 0 < |p| <= a.avail && a.n + |p| <= |s| && p == s[a.n..a.n + |p|]
    ensures var b := IdealAdvance(a.(stale := false), a.n + |p|);
      Follows(rx, a, AcceptFin(Deliver(rx, p).0, Deliver(rx, p).1, seg),
        if seg.fin && b.n == o + |seg.payload| && b.lo == b.hi then b.(fin := true) else b, s, isn)
  {
    hide U32, Cell, Holds, Read, AcceptFin, Deliver, Aside;
    var rx0, a0 := rx.(oooLen := 0), a.(stale := false);
    StaleDropped(rx, p);
    InOrderFollows(rx0, a0, s, isn, seg, o, p);
  }

  lemma HoldsNothing(b: seq<Byte>, s: seq<Byte>, n: nat)
    requires |b| > 0 && n <= |s|
    ensures Holds(b, s, n, n)
  {
  }

  /** A bare acknowledgement from beyond the sender's FIN changes nothing in the receiver, whether the FIN
      has arrived or not. */
  lemma AfterFinIgnored(rx: Rx, a: Ideal, s: seq<Byte>, isn: nat, seg: Segment, o: nat)
    requires RxValid(rx) && Refines(rx, a, s, isn) && Arrivable(rx, a, s, isn, seg, o) && AfterFin(seg, |s|, o)
    ensures IdealReceive(a, o, 0, false) == a
    ensures var r := Receive(rx, seg); r.rx == rx && r.bump == 0 && !r.finBump
  {
    hide U32, Cell, Read, Holds, TrimRxBuf, TrimHole, OooGap, IntervalHeld, InOrderPart, AddOutOfOrder,
         IdealAdvance;
    var m := Expected(a);
    Registers(rx, a, s, isn);
    TrimmedPayload(rx, a, s, isn, seg, o);
    if TrimRxBuf(rx.nextSeq, rx.avail, seg.seqno, 0).Keep? {
      TrimFits(rx, seg);
      NothingAdded(rx, U32(isn + o));
    }
  }

  lemma NothingFollows(rx: Rx, a: Ideal, r: Received, s: seq<Byte>, isn: nat)
    requires Refines(rx, a, s, isn) && r.rx == rx && r.bump == 0 && !r.finBump
    ensures Follows(rx, a, r, a, s, isn)
  {
    hide U32, Cell, Read, Holds;
    HoldsNothing(rx.buf, s, a.n);
    ReadHolds(rx.buf, s, a.n, 0);
  }

  /** A segment with bytes of the stream, before the end of the stream was seen. */
  lemma DataFollows(rx: Rx, a: Ideal, s: seq<Byte>, isn: nat, seg: Segment, o: nat)
    requires RxValid(rx) && Refines(rx, a, s, isn) && Arrivable(rx, a, s, isn, seg, o) && DataFrom(seg, s, o)
    requires !a.fin && !(o + |seg.payload| < a.n || o > a.n + a.avail)
    ensures Follows(rx, a, Receive(rx, seg), IdealReceive(a, o, |seg.payload|, seg.fin), s, isn)
  {
    hide *;
    if o > a.n {
      DataLater(rx, a, s, isn, seg, o);
    } else {
      DataHere(rx, a, s, isn, seg, o);
    }
  }

  lemma DataLater(rx: Rx, a: Ideal, s: seq<Byte>, isn: nat, seg: Segment, o: nat)
    requires RxValid(rx) && Refines(rx, a, s, isn) && Arrivable(rx, a, s, isn, seg, o) && DataFrom(seg, s, o)
    requires !a.fin && a.n < o <= a.n + a.avail
    ensures Follows(rx, a, Receive(rx, seg), IdealReceive(a, o, |seg.payload|, seg.fin), s, isn)
  {
    hide U32, Cell, Read, Holds, AddOutOfOrder, Deliver, TrimRxBuf, TrimHole, OooGap, IdealAdvance, IdealStore,
         AcceptFin, Follows, InOrderPart, IdealOk, Refines, RxValid;
    var t := TrimRxBuf(rx.nextSeq, rx.avail, seg.seqno, |seg.payload|);
    TrimmedPayload(rx, a, s, isn, seg, o);
    Registers(rx, a, s, isn);
    LaterFollows(rx, a, s, isn, o, seg.payload[t.start..|seg.payload| - t.end]);
  }

  lemma DataHere(rx: Rx, a: Ideal, s: seq<Byte>, isn: nat, seg: Segment, o: nat)
    requires RxValid(rx) && Refines(rx, a, s, isn) && Arrivable(rx, a, s, isn, seg, o) && DataFrom(seg, s, o)
    requires !a.fin && o <= a.n <= o + |seg.payload|
    ensures Follows(rx, a, Receive(rx, seg), IdealReceive(a, o, |seg.payload|, seg.fin), s, isn)
  {
    hide U32, Cell, Read, Holds, AddOutOfOrder, Deliver, TrimRxBuf, TrimHole, OooGap, IdealAdvance, IdealStore,
         AcceptFin, Follows, InOrderPart, IdealOk, Refines, RxValid;
    var t := TrimRxBuf(rx.nextSeq, rx.avail, seg.seqno, |seg.payload|);
    TrimmedPayload(rx, a, s, isn, seg, o);
    InRange(rx);
    TrimFits(rx, seg);
    Registers(rx, a, s, isn);
    var p := seg.payload[t.start..|seg.payload| - t.end];
    if !a.stale {
      InOrderFollows(rx, a, s, isn, seg, o, p);
    } else if |p| > 0 {
      StaleFollows(rx, a, s, isn, seg, o, p);
    } else {
      StaleKeepsFin(rx, a, s, isn, seg);
      NothingFollows(rx, a, AcceptFin(rx, 0, seg), s, isn);
    }
  }

  /** Payload beyond the next expected byte. */
  lemma LaterFollows(rx: Rx, a: Ideal, s: seq<Byte>, isn: nat, o: nat, p: seq<Byte>)
    requires RxValid(rx) && Refines(rx, a, s, isn) && !a.fin
    requires a.n < o && o + |p| <= a.n + a.avail && o + |p| <= |s| && p == s[o..o + |p|]
    requires Ahead(rx.nextSeq, U32(isn + o)) == o - a.n
    ensures U32(isn + o) != rx.nextSeq && o + |p| <= a.n + rx.avail && |p| <= rx.len
    ensures Follows(rx, a, Received(AddOutOfOrder(rx, U32(isn + o), p), 0, false, true, false),
                    IdealStore(a, o, o + |p|), s, isn)
  {
    hide U32, Cell, Holds, AddOutOfOrder, Follows;
    if a.stale {
      AdjacentIff(isn, o, a.n, a.n);
      StaleIgnores(rx, a, s, isn, U32(isn + o), p);
      NothingFollows(rx, a, Received(rx, 0, false, true, false), s, isn);
    } else {
      OutOfOrderFollows(rx, a, s, isn, o, p);
    }
  }

  lemma StaleKeepsFin(rx: Rx, a: Ideal, s: seq<Byte>, isn: nat, seg: Segment)
    requires RxValid(rx) && Refines(rx, a, s, isn) && a.stale
    ensures Deliver(rx, []) == (rx, 0) && AcceptFin(rx, 0, seg).rx == rx
    ensures AcceptFin(rx, 0, seg).bump == 0 && !AcceptFin(rx, 0, seg).finBump
  {
  }

  lemma Registers(rx: Rx, a: Ideal, s: seq<Byte>, isn: nat)
    requires Refines(rx, a, s, isn)
    ensures rx.nextSeq == U32(isn + Expected(a)) && rx.avail == a.avail && rx.fin == a.fin && IdealOk(a) && a.n <= |s|
  {
  }

  /** A segment that reaches the next expected offset without starting behind it is in order; it is answered exactly if
      it carries payload or its FIN is taken.  Every other segment is answered. */
  lemma Answered(rx: Rx, a: Ideal, s: seq<Byte>, isn: nat, seg: Segment, o: nat)
    requires RxValid(rx) && Refines(rx, a, s, isn) && Arrivable(rx, a, s, isn, seg, o)
    ensures var r, m := Receive(rx, seg), Expected(a);
      && (r.inOrder <==> o <= m <= o + |seg.payload|)
      && (r.reply <==> |seg.payload| > 0 || !r.inOrder || r.finBump)
  {
    hide U32, Cell, Holds, TrimRxBuf, TrimHole, InOrderPart, AddOutOfOrder, Deliver, IdealOk;
    Registers(rx, a, s, isn);
    TrimmedPayload(rx, a, s, isn, seg, o);
    var m, t := Expected(a), TrimRxBuf(rx.nextSeq, rx.avail, seg.seqno, |seg.payload|);
    if t.Keep? {
      var s0 := Max(o, m);
      NextOffset(rx.nextSeq, isn + s0);
    }
  }

  lemma NextOffset(nextSeq: nat, j: nat)
    requires nextSeq < W32
    ensures U32(j) == nextSeq <==> Ahead(nextSeq, U32(j)) == 0
  {
    hide U32;
    U32Near(U32(j) - nextSeq);
  }

  /** One segment: the concrete receiver follows the reference receiver exactly. */
  lemma ReceiveRefines(rx: Rx, a: Ideal, s: seq<Byte>, isn: nat, seg: Segment, o: nat)
    requires RxValid(rx) && Refines(rx, a, s, isn) && Arrivable(rx, a, s, isn, seg, o)
    ensures Follows(rx, a, Receive(rx, seg), IdealReceive(a, o, |seg.payload|, seg.fin), s, isn)
  {
    hide U32, Cell, TrimRxBuf, TrimHole, InOrderPart, AddOutOfOrder, Deliver, AcceptFin, IdealAdvance, IdealStore, Follows;
    if AfterFin(seg, |s|, o) {
      AfterFinIgnored(rx, a, s, isn, seg, o);
      NothingFollows(rx, a, Receive(rx, seg), s, isn);
    } else if o + |seg.payload| < Expected(a) || o > Expected(a) + a.avail {
      TrimmedPayload(rx, a, s, isn, seg, o);
      NothingFollows(rx, a, Receive(rx, seg), s, isn);
    } else {
      DataFollows(rx, a, s, isn, seg, o);
    }
  }
}
