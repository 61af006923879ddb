/** tas/fast/tcp_common.h: window trimming, acknowledgement validation, send credit. */
module TcpCommon {
  import opened Arith

  datatype Trim = Drop | Keep(start: nat, end: nat)

  /** tcp_trim_rxbuf, with its four wrap-around cases: packet [pktSeq, pktSeq+pktBytes] against
      window [nextSeq, nextSeq+avail] on the 32-bit circle. */
  function TrimRxBuf(nextSeq: nat, avail: nat, pktSeq: nat, pktBytes: nat): Trim {
    TrimArcs(nextSeq, U32(nextSeq + avail), pktSeq, U32(pktSeq + pktBytes))
  }

  function TrimArcs(sa: nat, sb: nat, pa: nat, pb: nat): Trim {
    if pa <= pb && sa <= sb then
      if pb < sa || pa > sb then Drop
      else Keep(if pa < sa then U16(sa - pa) else 0, if pb > sb then U16(pb - sb) else 0)
    else if pa <= pb && sa > sb then
      if pa > sb && pb < sa then Drop
      else Keep(if pa > sb && pa < sa then U16(sa - pa) else 0,
                if pb >= sb && pb < sa then U16(pb - sb) else 0)
    else if pa > pb && sa <= sb then
      if pa > sb && pb < sa then Drop
      else Keep(if sa <= pb || sa > pa then U16(U32(sa - pa)) else 0,
                if pb > sb || sa >= pa then U16(U32(pb - sb)) else 0)
    else
      Keep(if pa < sa then U16(sa - pa) else 0, if pb > sb then U16(pb - sb) else 0)
  }

  /** The inputs on which line 159 of tcp_common.h forgets to trim the tail: the packet
      wraps past 2^32, the window does not, and the packet starts strictly after the left
      edge of the window and no later than its right edge. */
  predicate TrimHole(nextSeq: nat, avail: nat, pktSeq: nat, pktBytes: nat) {
    var pa, pb := pktSeq, U32(pktSeq + pktBytes);
    var sa, sb := nextSeq, U32(nextSeq + avail);
    pa > pb && pb < sa < pa <= sb
  }

  /** Distance from a to b walking forward around the sequence circle. */
  function Ahead(a: int, b: int): nat {
    U32(b - a)
  }

  lemma AheadBy(a: int, d: nat)
    requires d < W32
    ensures Ahead(a, U32(a + d)) == d
  {
    U32Absorb(a + d, 0 - a);
  }

  /** The closed arcs [pktSeq, pktSeq+pktBytes] and [nextSeq, nextSeq+avail] share a point. */
  predicate ArcsMeet(nextSeq: nat, avail: nat, pktSeq: nat, pktBytes: nat) {
    Ahead(nextSeq, pktSeq) <= avail || Ahead(pktSeq, nextSeq) <= pktBytes
  }

  /** Packet byte i falls on a sequence number inside the receive window. */
  predicate InWindow(nextSeq: nat, avail: nat, pktSeq: nat, i: nat) {
    Ahead(nextSeq, pktSeq + i) < avail
  }

  /** A trim is exact when it drops precisely the packets that miss the window, and otherwise
      keeps precisely the packet bytes whose sequence numbers lie in the window. */
  ghost predicate ExactTrim(nextSeq: nat, avail: nat, pktSeq: nat, pktBytes: nat, t: Trim) {
    match t
    case Drop => !ArcsMeet(nextSeq, avail, pktSeq, pktBytes)
    case Keep(start, end) =>
      && ArcsMeet(nextSeq, avail, pktSeq, pktBytes)
      && start + end <= pktBytes
      && forall i: nat :: i < pktBytes ==>
           (start <= i < pktBytes - end <==> InWindow(nextSeq, avail, pktSeq, i))
  }

  /** Trimming in terms of the signed distance d from the left edge of the window to the packet. */
  lemma TrimByDistance(nextSeq: nat, avail: nat, d: int, len: nat)
    requires nextSeq < W32 && len < W16 && avail < W32 && avail - W32 < d && d + len < W32
    requires !TrimHole(nextSeq, avail, U32(nextSeq + d), len)
    ensures TrimRxBuf(nextSeq, avail, U32(nextSeq + d), len)
      == if d + len < 0 || d > avail then Drop
         else Keep(Max(0, -d), Max(0, d + len - avail))
  {
    U32Near(nextSeq + d);
    U32Near(nextSeq + avail);
    U32Near(U32(nextSeq + d) + len);
    TrimArcsByDistance(nextSeq, U32(nextSeq + avail), U32(nextSeq + d), U32(U32(nextSeq + d) + len), d, len, avail);
  }

  /** x is y brought back onto the circle. */
  predicate Wrapped(x: int, y: int) {
    x == if y < 0 then y + W32 else if y < W32 then y else y - W32
  }

  lemma TrimArcsByDistance(sa: nat, sb: nat, pa: nat, pb: nat, d: int, len: nat, avail: nat)
    requires sa < W32 && len < W16 && avail < W32 && avail - W32 < d && d + len < W32
    requires Wrapped(pa, sa + d) && Wrapped(sb, sa + avail) && Wrapped(pb, pa + len)
    requires !(pa > pb && pb < sa < pa <= sb)
    ensures TrimArcs(sa, sb, pa, pb)
      == if d + len < 0 || d > avail then Drop
         else Keep(Max(0, -d), Max(0, d + len - avail))
  {
    if pa > pb && sa <= sb && !(pa > sb && pb < sa) {
      U32Near(sa - pa);
      U32Near(pb - sb);
    }
  }

  /** In the hole nothing is trimmed although the packet overruns the window. */
  lemma TrimInHole(nextSeq: nat, avail: nat, pktSeq: nat, len: nat)
    requires nextSeq < W32 && pktSeq < W32 && len < W16 && avail + len < W32
    requires TrimHole(nextSeq, avail, pktSeq, len)
    ensures TrimRxBuf(nextSeq, avail, pktSeq, len) == Keep(0, 0)
    ensures len > 0 && !InWindow(nextSeq, avail, pktSeq, len - 1)
  {
    U32Near(pktSeq + len);
    U32Near(nextSeq + avail);
    U32Near(pktSeq + (len - 1) - nextSeq);
  }

  /** tcp_trim_rxbuf is circular-interval intersection on exactly the inputs outside the hole. */
  lemma TrimExactIff(nextSeq: nat, avail: nat, pktSeq: nat, pktBytes: nat)
    requires nextSeq < W32 && pktSeq < W32 && pktBytes < W16 && avail + pktBytes < W32
    ensures ExactTrim(nextSeq, avail, pktSeq, pktBytes, TrimRxBuf(nextSeq, avail, pktSeq, pktBytes))
      <==> !TrimHole(nextSeq, avail, pktSeq, pktBytes)
  {
    hide U32;
    if TrimHole(nextSeq, avail, pktSeq, pktBytes) {
      TrimInHole(nextSeq, avail, pktSeq, pktBytes);
    } else {
      var d := SignedDistance(nextSeq, avail, pktSeq, pktBytes);
      TrimByDistance(nextSeq, avail, d, pktBytes);
      forall i: nat | i < pktBytes
        ensures InWindow(nextSeq, avail, pktSeq, i) <==> 0 <= d + i < avail
      {
        U32Near(nextSeq + d);
        U32Near(pktSeq + i - nextSeq);
      }
    }
  }

  /** The signed distance that places the packet next to the window, if it meets it at all. */
  lemma SignedDistance(nextSeq: nat, avail: nat, pktSeq: nat, pktBytes: nat) returns (d: int)
    requires nextSeq < W32 && pktSeq < W32 && pktBytes < W16 && avail + pktBytes < W32
    ensures avail - W32 < d < W32 - pktBytes && U32(nextSeq + d) == pktSeq
    ensures ArcsMeet(nextSeq, avail, pktSeq, pktBytes) <==> 0 <= d + pktBytes && d <= avail
  {
    U32Near(pktSeq - nextSeq);
    U32Near(nextSeq - pktSeq);
    var ahead: int := Ahead(nextSeq, pktSeq);
    d := if ahead <= avail then ahead else ahead - W32;
    U32Near(nextSeq + d);
  }

  /** A concrete packet in the hole: 200 bytes starting 56 below 2^32, window of 100 bytes that
      ends at 2^32 - 6.  Nothing is trimmed although the window holds only 50 of the bytes. */
  lemma TrimHoleExample()
    ensures TrimRxBuf(W32 - 106, 100, W32 - 56, 200) == Keep(0, 0)
    ensures InWindow(W32 - 106, 100, W32 - 56, 49) && !InWindow(W32 - 106, 100, W32 - 56, 50)
  {
  }

  /** Stream offsets: packet [o, o+len], window [m, m+avail], close enough that their images
      on the 32-bit circle do not alias. */
  predicate Unaliased(o: int, len: nat, m: int, avail: nat) {
    avail < W32 && m + avail < o + W32 && o + len < m + W32
  }

  /** On unaliased stream offsets and outside the hole, trimming is plain interval intersection. */
  lemma TrimOffsets(isn: nat, o: nat, len: nat, m: nat, avail: nat)
    requires len < W16 && Unaliased(o, len, m, avail)
    requires !TrimHole(U32(isn + m), avail, U32(isn + o), len)
    ensures TrimRxBuf(U32(isn + m), avail, U32(isn + o), len)
      == if o + len < m || o > m + avail then Drop
         else Keep(Max(0, m - o), Max(0, o + len - (m + avail)))
  {
    U32Absorb(isn + m, o - m);
    assert isn + m + (o - m) == isn + o;
    TrimByDistance(U32(isn + m), avail, o - m, len);
  }

  /** A packet that ends no later than the right edge of the window is never in the hole. */
  lemma InsideWindowNoHole(isn: nat, o: nat, len: nat, m: nat, avail: nat)
    requires Unaliased(o, len, m, avail) && o + len <= m + avail
    ensures !TrimHole(U32(isn + m), avail, U32(isn + o), len)
  {
    var sa, d := U32(isn + m), o - m;
    U32Absorb(isn + m, d);
    assert isn + m + d == isn + o;
    U32Near(sa + d);
    U32Near(U32(isn + o) + len);
    U32Near(sa + avail);
  }

  datatype AckCheck = Reject | Accept(bump: nat)

  /** tcp_valid_rxack with future acknowledgements allowed. */
  function ValidRxAck(nextSeq: nat, sent: nat, avail: nat, ack: nat): AckCheck {
    var a, b := U32(nextSeq - sent), U32(nextSeq + avail);
    if a <= b then
      if ack < a || ack > b then Reject else Accept(U32(ack - a))
    else
      if a > ack && ack > b then Reject else Accept(U32(ack - a))
  }

  /** An acknowledgement is accepted exactly when it names a byte position between the oldest
      unacknowledged byte and the end of the send buffer, and the bump leads exactly there. */
  lemma ValidRxAckExact(nextSeq: nat, sent: nat, avail: nat, ack: nat)
    requires nextSeq < W32 && ack < W32 && sent + avail < W32
    ensures var r := ValidRxAck(nextSeq, sent, avail, ack);
      && (r.Accept? <==> Ahead(nextSeq - sent, ack) <= sent + avail)
      && (r.Accept? ==> r.bump == Ahead(nextSeq - sent, ack) && U32(nextSeq - sent + r.bump) == ack)
  {
    hide U32;
    var x := nextSeq - sent;
    var a := U32(x);
    U32Near(x);
    U32Near(nextSeq + avail);
    U32Near(ack - a);
    U32Near(ack - x);
    U32Near(x + Ahead(x, ack));
  }

  /** tcp_txavail: unsent bytes limited by the peer's window. */
  function TxAvail(avail: nat, sent: nat, remoteAvail: nat): nat {
    var fc := if sent > remoteAvail then 0 else remoteAvail - sent;
    Min(avail, fc)
  }

  /** It is all that is unsent as far as the peer's window allows: never past the window, and less than all only
      if the window is then used up. */
  lemma TxAvailExact(avail: nat, sent: nat, remoteAvail: nat)
    ensures var r := TxAvail(avail, sent, remoteAvail);
      r <= avail && (r > 0 ==> sent + r <= remoteAvail) && (r == avail || sent + r >= remoteAvail)
  {
  }
}
