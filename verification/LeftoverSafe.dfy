/** Leftover out-of-order intervals that do no harm although they touch the new window: the first in-order
    delivery leaves a receiver that holds nothing but bytes of the stream. */
module LeftoverSafe {
  import opened Arith
  import opened Circular
  import opened TcpCommon
  import opened FlowReceive
  import opened ReceiveReliability
  import opened ReceiveRuns
  import opened Leftovers

  /** What is left over: an interval that starts b bytes before the stream; or `over` bytes right behind the
      buffer, with the bytes from lo on stored before them. */
  datatype Kind = Before(b: nat) | AtEdge(lo: nat, over: nat)

  /** All that reaches into the stream, but its first byte, has been received. */
  ghost predicate Covered(rx: Rx, s: seq<Byte>, b: nat) {
    rx.oooLen - b == 1 || (1 < rx.oooLen - b <= rx.len && Holds(rx.buf, s, 1, rx.oooLen - b))
  }

  /** The buffer is a single byte. */
  predicate Narrow(rx: Rx) {
    rx.len == 1 && rx.oooLen < W16
  }

  /** The length modulo 2^16 cannot come to reach the stream. */
  predicate Doomed(rx: Rx, b: nat) {
    b >= W16 - 1 || U16(rx.oooLen) + Max(0, rx.len - (rx.oooLen - b)) <= b
  }

  predicate Unsplit(len: nat, isn: nat, over: nat) {
    len == 1 || U32(isn) + len >= W32 || U32(isn) + len + over < W32
  }

  ghost predicate Edge(rx: Rx, s: seq<Byte>, isn: nat, lo: nat, over: nat) {
    && Fresh(rx, isn) && 0 < over && over + rx.len <= W16 && Unsplit(rx.len, isn, over)
    && 1 <= lo <= rx.len && rx.oooStart == U32(isn + lo) && rx.oooLen == rx.len - lo + over
    && (lo < rx.len ==> Holds(rx.buf, s, lo, rx.len))
  }

  ghost predicate Dormant(rx: Rx, s: seq<Byte>, isn: nat, k: Kind) {
    match k
    case Before(b) => Behind(rx, isn, b) && (Covered(rx, s, b) || Narrow(rx) || Doomed(rx, b))
    case AtEdge(lo, over) => Edge(rx, s, isn, lo, over)
  }

  function Clean(rx: Rx): Rx {
    rx.(oooLen := 0)
  }

  function Begin(len: nat): Ideal {
    Ideal(0, len, 0, 0, false, false)
  }

  lemma DormantFresh(rx: Rx, s: seq<Byte>, isn: nat, k: Kind)
    requires Dormant(rx, s, isn, k)
    ensures Fresh(rx, isn) && Sane(rx)
  {
  }

  lemma FreshValid(rx: Rx, s: seq<Byte>, isn: nat)
    requires Fresh(rx, isn)
    ensures Sane(rx) && RxValid(Clean(rx)) && Refines(Clean(rx), Begin(rx.len), s, isn)
  {
    hide U32;
    assert isn + 0 == isn;
  }

  // ---- The first delivery ------------------------------------------------------------------

  /** After d bytes, with nothing stored. */
  function Got(rx: Rx, d: nat): Ideal
    requires d <= rx.len
  {
    Ideal(d, rx.len - d, 0, 0, false, false)
  }

  /** In-order bytes p, up to where the interval is reconsidered. */
  lemma FirstBytes(rx: Rx, s: seq<Byte>, isn: nat, p: seq<Byte>)
    requires Fresh(rx, isn) && 0 < |p| <= rx.len && |p| <= |s| && p == s[..|p|]
    ensures Sane(rx)
    ensures var rx1 := Overtaken(rx, p);
      && rx1 == rx.(avail := rx.len - |p|, nextPos := rx1.nextPos, nextSeq := U32(isn + |p|), buf := rx1.buf)
      && InOrderPart(rx1, Got(rx, |p|), s, isn) && Holds(rx1.buf, s, 0, |p|) && rx1.nextSeq < W32
      && forall lo, hi {:trigger Holds(rx1.buf, s, lo, hi)} ::
           0 <= lo <= hi <= rx.len && Holds(rx.buf, s, lo, hi) ==> Holds(rx1.buf, s, lo, hi)
  {
    hide U32, Cell, Holds, Write, OooDistance, Mergeable, Written;
    FreshValid(rx, s, isn);
    OvertakeRefines(Clean(rx), Begin(rx.len), s, isn, p) by { assert s[0..|p|] == s[..|p|]; }
    WriteWritten(rx.buf, 0, p);
    assert isn + 0 == isn;
    U32Absorb(isn, |p|);
    assert Cell(0, rx.len) == 0 by { CellBelow(0, rx.len); }
    forall lo: int, hi: int {:trigger Holds(rx.buf, s, lo, hi)} | 0 <= lo <= hi <= rx.len && Holds(rx.buf, s, lo, hi)
      ensures Holds(Write(rx.buf, 0, p), s, lo, hi)
    {
      assert p == s[0..0 + |p|];
      WriteKeeps(rx.buf, s, 0, p, Write(rx.buf, 0, p), lo, hi);
    }
  }

  lemma CellBelow(j: nat, len: nat)
    requires j < len
    ensures Cell(j, len) == j
  {
  }

  /** Nothing of the interval remains. */
  lemma NothingLeft(rx: Rx, a: Ideal, s: seq<Byte>, isn: nat, start: nat)
    requires InOrderPart(rx, a, s, isn) && !a.fin && !a.stale && a.lo == a.hi == 0 && start < W32
    ensures Refines(rx.(oooStart := start, oooLen := 0), a, s, isn)
  {
  }

  /** Bytes that are held join the stream. */
  lemma Joins(rx: Rx, a: Ideal, s: seq<Byte>, isn: nat, d: nat)
    requires InOrderPart(rx, a, s, isn) && !a.fin && !a.stale && a.lo == a.hi == 0 && rx.oooStart < W32
    requires d <= a.avail && Holds(rx.buf, s, a.n, a.n + d)
    ensures Refines(Advance(rx, d).(oooLen := 0), a.(n := a.n + d, avail := a.avail - d), s, isn)
  {
    hide U32, Cell, Read;
    AdvanceRefines(rx, a, s, isn, d);
  }

  /** What delivering p comes to: `total` bytes announced, all of the stream. */
  ghost predicate Delivers(rx: Rx, s: seq<Byte>, isn: nat, p: seq<Byte>, a: Ideal)
    requires Sane(rx) && |p| <= rx.avail
  {
    var r := Deliver(rx, p);
    && Refines(r.0, a, s, isn) && !a.fin && !a.stale && |p| <= a.n == r.1 <= rx.len && r.0.len == rx.len
    && a.n <= |s| && r.0.buf == Overtaken(rx, p).buf && Holds(r.0.buf, s, 0, a.n)
  }

  lemma BehindDelivers(rx: Rx, s: seq<Byte>, isn: nat, b: nat, p: seq<Byte>) returns (a: Ideal)
    requires Dormant(rx, s, isn, Before(b))
    requires 0 < |p| <= rx.len && |p| <= |s| && p == s[..|p|]
    ensures Sane(rx) && Delivers(rx, s, isn, p, a)
  {
    hide U32, Cell, Holds, Write, MergeOutOfOrder, InOrderPart, Refines, Advance;
    FirstBytes(rx, s, isn, p);
    var rx1, k := Overtaken(rx, p), |p|;
    a := Got(rx, k);
    StartBehind(rx, isn, b, k);
    MergeBehind(rx1, b + k);
    var u, hi := U16(rx.oooLen), rx.oooLen - b;
    if u < b + k {
      NothingLeft(rx1, a, s, isn, rx1.oooStart);
    } else {
      var m := rx.oooLen - (b + k) - Max(0, u - (b + k) - rx1.avail);
      if m == 0 {
        NothingLeft(rx1, a, s, isn, rx1.nextSeq);
      } else {
        CoveredRest(rx, s, b, k);
        HoldsPart(rx1.buf, s, 1, hi, k);
        Joins(rx1.(oooStart := rx1.nextSeq, oooLen := m), a, s, isn, m) by { Relabel(rx1, a, s, isn, rx1.nextSeq, m); }
        HoldsJoin(rx1.buf, s, 0, k, k, hi);
        AdvanceKeeps(rx1.(oooStart := rx1.nextSeq, oooLen := m), m);
        a := Got(rx, hi);
      }
    }
  }

  lemma AdvanceKeeps(rx: Rx, d: nat)
    ensures Advance(rx, d).buf == rx.buf && Advance(rx, d).len == rx.len
  {
  }

  lemma Relabel(rx: Rx, a: Ideal, s: seq<Byte>, isn: nat, start: nat, n: nat)
    requires InOrderPart(rx, a, s, isn)
    ensures InOrderPart(rx.(oooStart := start, oooLen := n), a, s, isn)
  {
  }

  lemma HoldsPart(b: seq<Byte>, s: seq<Byte>, lo: nat, hi: nat, k: nat)
    requires Holds(b, s, lo, hi) && lo <= k <= hi
    ensures Holds(b, s, k, hi)
  {
  }

  lemma StartBehind(rx: Rx, isn: nat, b: nat, k: nat)
    requires Behind(rx, isn, b) && k <= rx.len
    ensures rx.oooStart == U32(U32(isn + k) - (b + k))
  {
    hide U32;
    U32Absorb(isn, k);
    U32Absorb(U32(isn) + k, 0 - (b + k));
    assert U32(isn) + k + (0 - (b + k)) == U32(isn) - b;
  }

  /** If anything remains, it was received. */
  lemma CoveredRest(rx: Rx, s: seq<Byte>, b: nat, k: nat)
    requires 0 < k <= rx.len && b < rx.oooLen && (Covered(rx, s, b) || Narrow(rx) || Doomed(rx, b))
    requires U16(rx.oooLen) >= b + k
    requires rx.oooLen - (b + k) - Max(0, U16(rx.oooLen) - (b + k) - (rx.len - k)) > 0
    ensures 1 < rx.oooLen - b <= rx.len && Holds(rx.buf, s, 1, rx.oooLen - b)
    ensures Max(0, U16(rx.oooLen) - (b + k) - (rx.len - k)) == 0
  {
    hide Holds;
  }

  lemma EdgeDelivers(rx: Rx, s: seq<Byte>, isn: nat, lo: nat, over: nat, p: seq<Byte>) returns (a: Ideal)
    requires Edge(rx, s, isn, lo, over)
    requires 0 < |p| <= rx.len && |p| <= |s| && p == s[..|p|]
    ensures Sane(rx) && Delivers(rx, s, isn, p, a)
  {
    hide U32, Cell, Holds, Write, MergeOutOfOrder, InOrderPart, Refines, Advance, IntervalInHole, Unsplit;
    FirstBytes(rx, s, isn, p);
    var rx1, k, len := Overtaken(rx, p), |p|, rx.len;
    a := Got(rx, k);
    EdgeMerge(rx, s, isn, lo, over, rx1, k);
    var start := if k <= lo then rx.oooStart else rx1.nextSeq;
    if lo == len || k == len {
      NothingLeft(rx1, a, s, isn, start);
    } else if k < lo {
      a := a.(lo := lo, hi := len);
      StaysStored(rx1, Got(rx, k), s, isn, lo, len);
    } else {
      HoldsPart(rx1.buf, s, lo, len, k);
      Joins(rx1.(oooStart := start, oooLen := len - k), a, s, isn, len - k) by { Relabel(rx1, a, s, isn, start, len - k); }
      HoldsJoin(rx1.buf, s, 0, k, k, len);
      AdvanceKeeps(rx1.(oooStart := start, oooLen := len - k), len - k);
      a := Got(rx, len);
    }
  }

  lemma StaysStored(rx: Rx, a: Ideal, s: seq<Byte>, isn: nat, lo: nat, hi: nat)
    requires InOrderPart(rx, a, s, isn) && !a.fin && !a.stale && a.n < lo < hi <= a.n + a.avail
    requires rx.oooStart == U32(isn + lo) && rx.oooStart < W32 && Holds(rx.buf, s, lo, hi)
    ensures Refines(rx.(oooLen := hi - lo), a.(lo := lo, hi := hi), s, isn)
  {
  }

  /** Reconsidering it cuts off exactly what lies behind the buffer. */
  lemma EdgeMerge(rx: Rx, s: seq<Byte>, isn: nat, lo: nat, over: nat, rx1: Rx, k: nat)
    requires Edge(rx, s, isn, lo, over) && 0 < k <= rx.len
    requires rx1.avail == rx.len - k && rx1.nextSeq == U32(isn + k)
    requires rx1.oooStart == rx.oooStart && rx1.oooLen == rx.oooLen
    ensures MergeOutOfOrder(rx1) ==
      if k < lo then (rx1.(oooLen := rx.len - lo), 0)
      else Joined(rx1.(oooStart := rx1.nextSeq, oooLen := if k == lo then rx.len - lo else rx.len - k))
    ensures k == lo ==> rx1.nextSeq == rx.oooStart
  {
    hide U32, Holds, MergeOutOfOrder, IntervalInHole;
    if k <= lo {
      U32Absorb(isn + k, lo - k);
      assert isn + k + (lo - k) == isn + lo;
      MergeAhead(rx1, lo - k);
      EdgeNotInHole(rx, s, isn, lo, over, rx1, k);
    } else {
      U32Absorb(isn + k, lo - k);
      assert isn + k + (lo - k) == isn + lo && U32(isn + k) + (lo - k) == rx1.nextSeq - (k - lo);
      MergeBehind(rx1, k - lo);
    }
  }

  lemma EdgeNotInHole(rx: Rx, s: seq<Byte>, isn: nat, lo: nat, over: nat, rx1: Rx, k: nat)
    requires Edge(rx, s, isn, lo, over) && 0 < k <= lo
    requires rx1.avail == rx.len - k && rx1.nextSeq == U32(isn + k)
    requires rx1.oooStart == rx.oooStart && rx1.oooLen == rx.oooLen
    ensures !IntervalInHole(rx1)
  {
    hide U32, Holds;
    U32Absorb(isn, k);
    U32Absorb(isn, lo);
    U32Near(U32(isn) + k);
    U32Near(U32(isn) + lo);
    U32Near(rx1.nextSeq + rx1.avail);
    U32Near(rx1.oooStart + rx1.oooLen);
  }

  /** In terms of what the receiver reports. */
  lemma DeliversFollows(rx: Rx, s: seq<Byte>, isn: nat, p: seq<Byte>, a: Ideal)
    requires Fresh(rx, isn) && Sane(rx) && |p| <= rx.avail && Delivers(rx, s, isn, p, a)
    ensures var r := Deliver(rx, p);
      Follows(rx, Begin(rx.len), Received(r.0, r.1, false, true, true), a, s, isn)
  {
    hide U32, Cell, Holds, Read, Deliver, Refines;
    var buf := Deliver(rx, p).0.buf;
    RefinedLen(Deliver(rx, p).0, a, s, isn);
    assert Cell(0, |buf|) == 0 by { CellBelow(0, |buf|); }
    ReadHolds(buf, s, 0, a.n);
  }

  lemma RefinedLen(rx: Rx, a: Ideal, s: seq<Byte>, isn: nat)
    requires Refines(rx, a, s, isn)
    ensures 0 < rx.len == |rx.buf| && (a.fin ==> a.n == |s|)
  {
  }

  // ---- Storing before the first delivery -----------------------------------------------------

  /** Payload beyond the first byte is stored only if it follows the part behind the stream, or precedes the
      part behind the buffer. */
  lemma StoresBehind(rx: Rx, s: seq<Byte>, isn: nat, b: nat, o: nat, p: seq<Byte>)
    requires Dormant(rx, s, isn, Before(b)) && Sane(rx)
    requires 0 < o && o + |p| <= rx.len && o + |p| <= |s| && p == s[o..o + |p|]
    requires Ahead(rx.nextSeq, U32(isn + o)) == o
    ensures Dormant(AddOutOfOrder(rx, U32(isn + o), p), s, isn, Before(b))
  {
    hide U32, Cell, Holds, SeqWrite, Written, U16;
    BehindStorable(rx, isn, b, o, |p|);
    if Storable(rx, U32(isn + o), |p|) {
      var buf := SeqWrite(rx, U32(isn + o), p);
      if Covered(rx, s, b) {
        StoredHolds(rx, s, isn, o, p, 1, o);
        HoldsJoin(buf, s, 1, o, o, o + |p|);
      } else if Doomed(rx, b) {
        LengthModulo(rx.oooLen, |p|);
      }
    }
  }

  lemma LengthModulo(n: nat, d: nat)
    ensures U16(n) + d < W16 ==> U16(n + d) == U16(n) + d
    ensures U16(n + d) < W16
  {
  }

  lemma BehindStorable(rx: Rx, isn: nat, b: nat, o: nat, n: nat)
    requires Behind(rx, isn, b) && 0 < o && o + n <= rx.len
    ensures Storable(rx, U32(isn + o), n) <==> n > 0 && o == rx.oooLen - b
    ensures Storable(rx, U32(isn + o), n) ==> GrowInterval(rx, U32(isn + o), n) == rx.(oooLen := rx.oooLen + n)
  {
    hide U32;
    var a := U32(isn);
    U32Absorb(isn, o);
    U32Near(a + o);
    U32Near(a - b);
    U32Near(U32(isn + o) + n);
    U32Near(rx.oooStart + rx.oooLen);
  }

  /** Storing at offset o spoils nothing between the first byte and o, nor behind what is stored. */
  lemma StoredHolds(rx: Rx, s: seq<Byte>, isn: nat, o: nat, p: seq<Byte>, lo: nat, hi: nat)
    requires Fresh(rx, isn) && Sane(rx) && 0 < o && o + |p| <= rx.len && o + |p| <= |s| && p == s[o..o + |p|]
    requires Ahead(rx.nextSeq, U32(isn + o)) == o && lo <= hi <= rx.len
    ensures Holds(SeqWrite(rx, U32(isn + o), p), s, o, o + |p|)
    ensures (lo < hi ==> Holds(rx.buf, s, lo, hi)) && hi <= |s| ==> Holds(SeqWrite(rx, U32(isn + o), p), s, lo, hi)
  {
    hide U32, Cell, SeqWrite, Written;
    assert rx.nextPos == Cell(0, rx.len) by { CellBelow(0, rx.len); }
    assert isn + 0 == isn;
    SeqWriteWritten(rx, isn, 0, o, p);
    var buf := SeqWrite(rx, U32(isn + o), p);
    WriteHolds(rx.buf, s, o, p, buf);
    if lo < hi && Holds(rx.buf, s, lo, hi) {
      WriteKeeps(rx.buf, s, o, p, buf, lo, hi);
    }
  }

  lemma StoresAtEdge(rx: Rx, s: seq<Byte>, isn: nat, lo: nat, over: nat, o: nat, p: seq<Byte>)
    requires Edge(rx, s, isn, lo, over) && Sane(rx)
    requires 0 < o && o + |p| <= rx.len && o + |p| <= |s| && p == s[o..o + |p|]
    requires Ahead(rx.nextSeq, U32(isn + o)) == o
    ensures Edge(AddOutOfOrder(rx, U32(isn + o), p), s, isn, if 0 < |p| == lo - o then o else lo, over)
  {
    hide U32, Cell, Holds, SeqWrite, Written, Unsplit;
    EdgeStorable(rx, s, isn, lo, over, o, |p|);
    if Storable(rx, U32(isn + o), |p|) {
      StoredHolds(rx, s, isn, o, p, lo, rx.len);
      if lo < rx.len {
        HoldsBound(rx.buf, s, lo, rx.len);
        HoldsJoin(SeqWrite(rx, U32(isn + o), p), s, o, lo, lo, rx.len);
      }
    }
  }

  lemma HoldsBound(b: seq<Byte>, s: seq<Byte>, lo: int, hi: int)
    requires Holds(b, s, lo, hi)
    ensures hi <= |s|
  {
  }

  lemma EdgeStorable(rx: Rx, s: seq<Byte>, isn: nat, lo: nat, over: nat, o: nat, n: nat)
    requires Edge(rx, s, isn, lo, over) && 0 < o && o + n <= rx.len
    ensures Storable(rx, U32(isn + o), n) <==> n > 0 && o + n == lo
    ensures o + n == lo && n > 0 ==> GrowInterval(rx, U32(isn + o), n) == rx.(oooStart := U32(isn + o), oooLen := rx.oooLen + n)
  {
    hide U32, Holds;
    U32Absorb(isn + o, n);
    U32Absorb(isn + lo, rx.oooLen);
    AdjacentIff(isn, o + n, lo, 0);
    AdjacentIff(isn, lo + rx.oooLen, o, 0);
    assert isn + o + n == isn + (o + n) && isn + lo + rx.oooLen == isn + (lo + rx.oooLen);
  }

  // ---- Segments and runs ---------------------------------------------------------------------

  predicate Starts(seg: Segment, o: nat) {
    o == 0 && |seg.payload| > 0
  }

  lemma TrimAtStart(rx: Rx, s: seq<Byte>, isn: nat, seg: Segment, o: nat)
    requires Fresh(rx, isn) && CutFrom(seg, s, isn, o) && Unaliased(o, |seg.payload|, 0, rx.len) && !InHole(rx, seg)
    ensures var t, len := TrimRxBuf(rx.nextSeq, rx.avail, seg.seqno, |seg.payload|), |seg.payload|;
      && (t.Drop? <==> o > rx.len)
      && (t.Keep? ==> var e := Min(o + len, rx.len);
          && t.start == 0 && t.end <= len && len - t.end == e - o && U32(seg.seqno + t.start) == U32(isn + o)
          && Ahead(rx.nextSeq, U32(isn + o)) == o && U32(isn + o) < W32
          && (e <= |s| ==> seg.payload[t.start..len - t.end] == s[o..e]))
  {
    hide U32, Cell, Holds, TrimRxBuf, TrimHole;
    FreshValid(rx, s, isn);
    TrimmedPayload(Clean(rx), Begin(rx.len), s, isn, seg, o);
    TrimOffsets(isn, o, |seg.payload|, 0, rx.len) by { assert isn + 0 == isn; }
  }

  lemma NothingDelivered(rx: Rx, seg: Segment)
    requires Sane(rx) && rx.oooLen > 0
    ensures Deliver(rx, []) == (rx, 0) && AcceptFin(rx, 0, seg).rx == rx && AcceptFin(rx, 0, seg).bump == 0
  {
  }

  /** A segment that does not start the stream leaves a dormant state. */
  lemma QuietSegment(rx: Rx, s: seq<Byte>, isn: nat, k: Kind, seg: Segment, o: nat) returns (k': Kind)
    requires Dormant(rx, s, isn, k) && Sane(rx) && !Starts(seg, o)
    requires CutFrom(seg, s, isn, o) && Unaliased(o, |seg.payload|, 0, rx.len) && !InHole(rx, seg)
    ensures Dormant(Receive(rx, seg).rx, s, isn, k') && Receive(rx, seg).bump == 0
  {
    hide U32, Cell, Holds, TrimRxBuf, TrimHole, AddOutOfOrder, Deliver, AcceptFin, Edge, Behind, Covered, Narrow, Doomed;
    k' := k;
    Shape(rx, s, isn, k);
    TrimAtStart(rx, s, isn, seg, o);
    if o <= rx.len {
      TrimPlaces(rx, seg);
      var t, len := TrimRxBuf(rx.nextSeq, rx.avail, seg.seqno, |seg.payload|), |seg.payload|;
      var p := seg.payload[t.start..len - t.end];
      if o > 0 {
        assert U32(isn + o) != rx.nextSeq by { NotNext(isn, o); }
        if Min(o + len, rx.len) <= |s| {
          match k
          case Before(b) => StoresBehind(rx, s, isn, b, o, p);
          case AtEdge(lo, over) =>
            StoresAtEdge(rx, s, isn, lo, over, o, p);
            k' := AtEdge(if 0 < |p| == lo - o then o else lo, over);
        } else {
          assert p == [];
          NothingAdded(rx, U32(isn + o));
        }
      } else {
        NothingDelivered(rx, seg);
      }
    }
  }

  lemma NotNext(isn: nat, o: nat)
    requires 0 < o && Ahead(U32(isn), U32(isn + o)) == o
    ensures U32(isn + o) != U32(isn)
  {
    hide U32;
    U32Near(0);
  }

  lemma Shape(rx: Rx, s: seq<Byte>, isn: nat, k: Kind)
    requires Dormant(rx, s, isn, k)
    ensures Fresh(rx, isn)
  {
  }

  /** The segment that starts the stream ends it. */
  lemma StartSegment(rx: Rx, s: seq<Byte>, isn: nat, k: Kind, seg: Segment) returns (a: Ideal)
    requires Dormant(rx, s, isn, k) && Sane(rx) && |seg.payload| > 0
    requires CutFrom(seg, s, isn, 0) && Unaliased(0, |seg.payload|, 0, rx.len) && !InHole(rx, seg)
    ensures Follows(rx, Begin(rx.len), Receive(rx, seg), a, s, isn)
  {
    hide U32, Cell, Holds, Read, TrimRxBuf, TrimHole, Deliver, AcceptFin, Edge, Behind, Covered, Narrow, Doomed, Follows,
         Delivers;
    Shape(rx, s, isn, k);
    TrimAtStart(rx, s, isn, seg, 0);
    TrimPlaces(rx, seg);
    var t, len := TrimRxBuf(rx.nextSeq, rx.avail, seg.seqno, |seg.payload|), |seg.payload|;
    var p, e := seg.payload[t.start..len - t.end], Min(len, rx.len);
    assert isn + 0 == isn;
    assert p == s[..e] && |p| == e by { assert s[0..e] == s[..e]; }
    match k {
      case Before(b) => a := BehindDelivers(rx, s, isn, b, p);
      case AtEdge(lo, over) => a := EdgeDelivers(rx, s, isn, lo, over, p);
    }
    DeliversFollows(rx, s, isn, p, a);
    NotEnded(rx, s, isn, p, a);
    FinFollows(rx, Begin(rx.len), Deliver(rx, p).0, a, s, isn, Deliver(rx, p).1, seg, 0);
    if seg.fin && a.n == len && a.lo == a.hi {
      a := a.(fin := true);
    }
  }

  lemma NotEnded(rx: Rx, s: seq<Byte>, isn: nat, p: seq<Byte>, a: Ideal)
    requires Sane(rx) && |p| <= rx.avail && Delivers(rx, s, isn, p, a)
    ensures !a.fin && !a.stale && a.n <= rx.len < HALF32
  {
  }

  /** Runs from a dormant state announce only stream bytes. */
  lemma {:induction false} DormantPrefix(rx: Rx, s: seq<Byte>, isn: nat, k: Kind, evs: seq<Event>)
    requires Dormant(rx, s, isn, k) && Sane(rx)
    ensures PrefixOnly(rx, s, isn, evs)
    decreases |evs|
  {
    hide U32, Cell, Holds, TrimHole, Receive, Dormant, Refines, Around, Unaliased, RxValid;
    Shape(rx, s, isn, k);
    if AllAdmissible(rx, 0, s, isn, evs) && |evs| > 0 {
      var e, rest := evs[0], evs[1..];
      match e
      case Release(r) =>
        assert rx.(avail := rx.avail + r) == rx;
        DormantPrefix(rx, s, isn, k, rest);
        assert [] + Run(rx, 0, s, isn, rest).announced == Run(rx, 0, s, isn, rest).announced;
      case Arrive(seg, o) =>
        if Starts(seg, o) {
          StartedPrefix(rx, s, isn, k, evs);
        } else {
          var k' := QuietSegment(rx, s, isn, k, seg, o);
          var rx1 := Receive(rx, seg).rx;
          DormantFresh(rx1, s, isn, k');
          Shape(rx1, s, isn, k');
          DormantPrefix(rx1, s, isn, k', rest);
          assert Around(rx1.buf, rx.nextPos, 0) == [];
          assert [] + Run(rx1, 0, s, isn, rest).announced == Run(rx1, 0, s, isn, rest).announced;
        }
    }
  }

  lemma StartedPrefix(rx: Rx, s: seq<Byte>, isn: nat, k: Kind, evs: seq<Event>)
    requires Dormant(rx, s, isn, k) && Sane(rx) && AllAdmissible(rx, 0, s, isn, evs)
    requires |evs| > 0 && evs[0].Arrive? && Starts(evs[0].seg, evs[0].o)
    ensures PrefixOnly(rx, s, isn, evs)
  {
    hide U32, Cell, Holds, TrimHole, Receive, Dormant, Refines, Around, Read, RxValid, Run, AllAdmissible;
    Shape(rx, s, isn, k);
    var seg := evs[0].seg;
    FirstAdmissible(rx, 0, s, isn, evs);
    var a := StartSegment(rx, s, isn, k, seg);
    var rx1 := Receive(rx, seg).rx;
    RefinesValid(rx1, a, s, isn);
    InRange(rx1);
    AroundRead(rx1.buf, rx.nextPos, a.n);
    RestAdmissible(rx, 0, s, isn, evs, s[..a.n]) by { assert s[0..a.n] == s[..a.n]; }
    var b := RunDelivers(rx1, a, s, isn, evs[1..]);
    EndMeansAll(Run(rx1, a.n, s, isn, evs[1..]).rx, b, s, isn);
    assert s[..a.n] + s[a.n..b.n] == s[..b.n];
  }

  lemma FirstAdmissible(rx: Rx, n: nat, s: seq<Byte>, isn: nat, evs: seq<Event>)
    requires Sane(rx) && AllAdmissible(rx, n, s, isn, evs) && |evs| > 0
    ensures Admissible(rx, n, s, isn, evs[0])
  {
  }

  /** The run from its second event on. */
  lemma RestAdmissible(rx: Rx, n: nat, s: seq<Byte>, isn: nat, evs: seq<Event>, bytes: seq<Byte>)
    requires Sane(rx) && AllAdmissible(rx, n, s, isn, evs) && |evs| > 0
    requires Admissible(rx, n, s, isn, evs[0]) && Step(rx, evs[0]).1 == bytes && Sane(Step(rx, evs[0]).0)
    ensures var rx1 := Step(rx, evs[0]).0;
      && AllAdmissible(rx1, n + |bytes|, s, isn, evs[1..])
      && var r := Run(rx1, n + |bytes|, s, isn, evs[1..]);
         Run(rx, n, s, isn, evs) == r.(announced := bytes + r.announced)
  {
    hide Step, Admissible;
  }

  lemma EndMeansAll(rx: Rx, a: Ideal, s: seq<Byte>, isn: nat)
    requires Refines(rx, a, s, isn)
    ensures a.n <= |s| && (rx.fin ==> a.n == |s|)
  {
  }
}
