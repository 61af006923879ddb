/** A flow installed in a slot whose out-of-order registers still describe an interval of the flow
    before (tas/slow/nicif.c does not reset them): which leftovers do no harm, and what the receiver makes
    of one. */
module Leftovers {
  import opened Arith
  import opened TcpCommon
  import opened FlowReceive
  import opened ReceiveReliability
  import opened ReceiveRuns

  /** An interval that starts b bytes before the stream (or with it) and reaches past its first byte.  It is
      harmless if the first byte is all of the stream it reaches, or all of the buffer, and the length fits 16
      bits; or if its length modulo 2^16 never reaches the stream, however much is stored behind it. */
  predicate HarmlessBehind(len: nat, b: nat, n: nat)
    requires b < n
  {
    if n < W16 then n - b == 1 || len == 1
    else b >= W16 - 1 || U16(n) + Max(0, len - (n - b)) <= b
  }

  /** An interval that starts at the first byte behind the buffer: harmless if it stays below 2^16 bytes with
      everything stored before it, and is not in the hole of the trimming. */
  predicate HarmlessEdge(len: nat, isn: nat, n: nat) {
    n + len <= W16 && (len == 1 || U32(isn) + len >= W32 || U32(isn) + len + n < W32)
  }

  /** The leftovers that never make the receiver announce a byte it did not get. */
  predicate Harmless(len: nat, isn: nat, oooStart: nat, oooLen: nat) {
    var g, b := Ahead(U32(isn), oooStart), Ahead(oooStart, U32(isn));
    || oooLen == 0
    || (if g == 0 || (g > len && b < oooLen) then b < oooLen && HarmlessBehind(len, b, oooLen)
        else g > len || (g == len && HarmlessEdge(len, isn, oooLen)))
  }

  /** Nothing received yet; an interval was left over. */
  predicate Fresh(rx: Rx, isn: nat) {
    && 0 < rx.len == |rx.buf| == rx.avail < HALF32 && rx.nextPos == 0 && rx.nextSeq == U32(isn) && !rx.fin
    && rx.oooStart < W32 && rx.oooLen > 0
  }

  /** The interval starts b bytes before the stream and reaches past its first byte. */
  predicate Behind(rx: Rx, isn: nat, b: nat) {
    && Fresh(rx, isn) && rx.oooStart == U32(U32(isn) - b)
    && b < rx.oooLen < b + HALF32 && b < HALF32
  }

  /** Where the interval starts, seen from the stream. */
  lemma StartIs(isn: nat, oooStart: nat)
    requires oooStart < W32
    ensures var g, b := Ahead(U32(isn), oooStart), Ahead(oooStart, U32(isn));
      && oooStart == U32(isn + g) == U32(U32(isn) - b) && g < W32 && b < W32
      && b == (if g == 0 then 0 else W32 - g)
  {
    hide U32;
    var a := U32(isn);
    U32Near(oooStart - a);
    U32Near(a - oooStart);
    U32Near(a + Ahead(a, oooStart));
    U32Near(a - Ahead(oooStart, a));
    U32Absorb(isn, Ahead(a, oooStart));
  }

  // ---- Reconsidering an interval wherever it is --------------------------------------------

  function Joined(rx: Rx): (Rx, nat) {
    if rx.oooLen > 0 then (Advance(rx, rx.oooLen).(oooLen := 0), rx.oooLen) else (rx, 0)
  }

  /** An interval that starts c bytes behind the next expected one. */
  lemma MergeBehind(rx: Rx, c: nat)
    requires rx.nextSeq < W32 && rx.avail < HALF32 && 0 < c < W32 - rx.avail && rx.oooLen > 0
    requires rx.oooStart == U32(rx.nextSeq - c)
    ensures var u := U16(rx.oooLen);
      && (u < c ==> MergeOutOfOrder(rx) == (rx.(oooLen := 0), 0))
      && (u >= c ==>
            && c + Max(0, u - c - rx.avail) <= rx.oooLen
            && MergeOutOfOrder(rx)
               == Joined(rx.(oooStart := rx.nextSeq, oooLen := rx.oooLen - c - Max(0, u - c - rx.avail))))
  {
    hide U32;
    var u := U16(rx.oooLen);
    assert u <= rx.oooLen;
    U32Near(rx.nextSeq - c);
    NotInHole(rx.nextSeq, rx.avail, rx.oooStart, u, c);
    TrimByDistance(rx.nextSeq, rx.avail, 0 - c, u);
    U32Absorb(rx.nextSeq - c, c);
    U32Near(rx.nextSeq);
    assert rx.nextSeq - c + c == rx.nextSeq;
  }

  lemma NotInHole(nextSeq: nat, avail: nat, start: nat, len: nat, c: nat)
    requires nextSeq < W32 && avail < HALF32 && 0 < c < W32 - avail && start == U32(nextSeq - c)
    ensures !TrimHole(nextSeq, avail, start, len)
  {
    hide U32;
    U32Near(nextSeq - c);
    U32Near(nextSeq + avail);
  }

  predicate IntervalInHole(rx: Rx) {
    TrimHole(rx.nextSeq, rx.avail, rx.oooStart, U16(rx.oooLen))
  }

  /** How much the re-trim takes off the end of an interval that starts d bytes ahead. */
  function CutOff(rx: Rx, d: nat): nat {
    if IntervalInHole(rx) then 0 else Max(0, d + U16(rx.oooLen) - rx.avail)
  }

  /** An interval that starts d bytes ahead of the next expected one, inside the window or at its end. */
  lemma MergeAhead(rx: Rx, d: nat)
    requires rx.nextSeq < W32 && d <= rx.avail < HALF32 && rx.oooLen > 0
    requires rx.oooStart == U32(rx.nextSeq + d)
    ensures CutOff(rx, d) <= U16(rx.oooLen) <= rx.oooLen
    ensures var rx' := rx.(oooLen := rx.oooLen - CutOff(rx, d));
      MergeOutOfOrder(rx) == if d == 0 then Joined(rx') else (rx', 0)
  {
    hide U32, TrimHole;
    var u := U16(rx.oooLen);
    U32Near(rx.nextSeq + d);
    U32Near(rx.oooStart);
    if IntervalInHole(rx) {
      TrimInHole(rx.nextSeq, rx.avail, rx.oooStart, u);
    } else {
      TrimByDistance(rx.nextSeq, rx.avail, d, u);
    }
  }

  // ---- Pieces of a stream ------------------------------------------------------------------

  /** The segment with n bytes of s from offset o. */
  function Piece(s: seq<Byte>, isn: nat, o: nat, n: nat): Event
    requires o + n <= |s|
  {
    Arrive(Segment(U32(isn + o), 0, 0, false, false, false, false, s[o..o + n]), o)
  }

  lemma PieceAdmissible(rx: Rx, n: nat, s: seq<Byte>, isn: nat, o: nat, len: nat)
    requires Sane(rx) && !rx.fin && rx.nextSeq == U32(isn + n) && o + len <= |s| && len < W16
    requires n <= o && o + len <= n + rx.avail
    ensures Admissible(rx, n, s, isn, Piece(s, isn, o, len)) && SegmentValid(Piece(s, isn, o, len).seg)
    ensures TrimRxBuf(rx.nextSeq, rx.avail, U32(isn + o), len) == Keep(0, 0)
  {
    hide U32, TrimHole, TrimRxBuf;
    InsideWindowNoHole(isn, o, len, n, rx.avail);
    TrimOffsets(isn, o, len, n, rx.avail);
  }

  /** The next byte is delivered. */
  lemma NextPiece(rx: Rx, n: nat, s: seq<Byte>, isn: nat)
    requires Sane(rx) && !rx.fin && rx.nextSeq == U32(isn + n) && n < |s| && rx.avail > 0
    ensures var e, r := Piece(s, isn, n, 1), Deliver(rx, [s[n]]);
      && Admissible(rx, n, s, isn, e) && SegmentValid(e.seg)
      && Receive(rx, e.seg) == Received(r.0, r.1, false, true, true)
  {
    hide U32, TrimHole, TrimRxBuf, Deliver, CutFrom, Unaliased;
    PieceAdmissible(rx, n, s, isn, n, 1);
    U32Near(U32(isn + n));
    var p := Piece(s, isn, n, 1).seg.payload;
    assert p == [s[n]] && p[0..1] == p;
  }

  /** A later piece is offered to the out-of-order interval. */
  lemma LaterPiece(rx: Rx, n: nat, s: seq<Byte>, isn: nat, o: nat, len: nat)
    requires Sane(rx) && !rx.fin && rx.nextSeq == U32(isn + n) && o + len <= |s| && len < W16
    requires n < o && o + len <= n + rx.avail
    ensures var e := Piece(s, isn, o, len);
      && Admissible(rx, n, s, isn, e) && SegmentValid(e.seg)
      && Ahead(rx.nextSeq, U32(isn + o)) == o - n
      && Receive(rx, e.seg) == Received(AddOutOfOrder(rx, U32(isn + o), s[o..o + len]), 0, false, true, false)
  {
    hide U32, TrimHole, TrimRxBuf, AddOutOfOrder, CutFrom, Unaliased;
    PieceAdmissible(rx, n, s, isn, o, len);
    U32Near(U32(isn + o));
    U32Absorb(isn + n, o - n);
    AheadBy(rx.nextSeq, o - n);
    assert isn + n + (o - n) == isn + o;
    AdjacentIff(isn, n, o, n);
    var p := Piece(s, isn, o, len).seg.payload;
    assert p[0..len] == p;
  }
}
