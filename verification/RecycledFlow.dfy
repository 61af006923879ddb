/** A flow installed in a used slot: the exact condition on the out-of-order interval left over there. */
module RecycledFlow {
  import opened Arith
  import opened Circular
  import opened TcpCommon
  import opened FlowReceive
  import opened ReceiveRuns
  import opened Leftovers
  import opened LeftoverBreaks
  import opened LeftoverSafe

  /** For every interval a previous flow can have left, wherever the new initial sequence number puts it: the
      receiver announces only a prefix of the stream, on every stream and every run, if and only if the interval
      is harmless. */
  lemma RecycledIff(len: nat, isn: nat, buf: seq<Byte>, oooStart: nat, oooLen: nat)
    requires 0 < len == |buf| < HALF32 && oooStart < W32 && oooLen < HALF32
    ensures var rx := Installed(len, isn, buf, oooStart, oooLen);
      && Sane(rx)
      && ((forall s, evs :: PrefixOnly(rx, s, isn, evs)) <==> Harmless(len, isn, oooStart, oooLen))
  {
    hide U32, U16, PrefixOnly, HarmlessBehind, HarmlessEdge, Ahead;
    var rx, g, b := Installed(len, isn, buf, oooStart, oooLen), Ahead(U32(isn), oooStart), Ahead(oooStart, U32(isn));
    StartIs(isn, oooStart);
    if oooLen == 0 || (g > len && oooLen <= b) {
      AsideSafe(len, isn, buf, oooStart, oooLen);
    } else if g == 0 || g > len {
      BehindIff(rx, isn, b);
    } else {
      AheadIff(rx, isn, g);
    }
  }

  lemma AsideSafe(len: nat, isn: nat, buf: seq<Byte>, oooStart: nat, oooLen: nat)
    requires 0 < len == |buf| < HALF32 && oooStart < W32 && LeftAside(len, isn, oooStart, oooLen)
    ensures var rx := Installed(len, isn, buf, oooStart, oooLen);
      Sane(rx) && forall s, evs :: PrefixOnly(rx, s, isn, evs)
  {
    hide U32, PrefixOnly, LeftAside;
    var rx := Installed(len, isn, buf, oooStart, oooLen);
    assert Sane(rx);
    forall s, evs
      ensures PrefixOnly(rx, s, isn, evs)
    {
      StreamPrefix(len, isn, buf, oooStart, oooLen, s, evs);
    }
  }

  lemma BehindIff(rx: Rx, isn: nat, b: nat)
    requires Behind(rx, isn, b) && Sane(rx)
    ensures (forall s, evs :: PrefixOnly(rx, s, isn, evs)) <==> HarmlessBehind(rx.len, b, rx.oooLen)
  {
    hide U32, U16, PrefixOnly;
    assert rx.oooLen < W16 ==> U16(rx.oooLen) == rx.oooLen by { Short(rx.oooLen); }
    if HarmlessBehind(rx.len, b, rx.oooLen) {
      forall s, evs
        ensures PrefixOnly(rx, s, isn, evs)
      {
        DormantPrefix(rx, s, isn, Before(b), evs);
      }
    } else if U16(rx.oooLen) > b {
      var s, evs := BehindBreaks(rx, isn, b);
    } else {
      var s, evs := BehindGrowsBreaks(rx, isn, b);
    }
  }

  lemma Short(n: nat)
    ensures n < W16 ==> U16(n) == n
  {
  }

  lemma AheadIff(rx: Rx, isn: nat, g: nat)
    requires Fresh(rx, isn) && Sane(rx) && 0 < g <= rx.len && rx.oooStart == U32(isn + g)
    ensures (forall s, evs :: PrefixOnly(rx, s, isn, evs)) <==> g == rx.len && HarmlessEdge(rx.len, isn, rx.oooLen)
  {
    hide U32, PrefixOnly;
    assert isn + 0 == isn;
    if g < rx.len || rx.oooLen >= W16 {
      var s, evs := AheadBreaks(rx, isn, g);
    } else if rx.oooLen + rx.len > W16 {
      var s, evs := EdgeGrowsBreaks(rx, isn);
    } else if !HarmlessEdge(rx.len, isn, rx.oooLen) {
      var s, evs := EdgeHoleBreaks(rx, isn);
    } else {
      forall s, evs
        ensures PrefixOnly(rx, s, isn, evs)
      {
        DormantPrefix(rx, s, isn, AtEdge(g, rx.oooLen), evs);
      }
    }
  }

  /** A leftover interval of 10 bytes right behind the first byte, in a buffer of 100: one in-order byte
      makes the receiver announce 11. */
  lemma LeftoverExample(isn: nat, buf: seq<Byte>, s: seq<Byte>)
    requires |buf| == 100 && |s| == 1
    ensures var rx := Installed(100, isn, buf, U32(isn + 1), 10);
      && Sane(rx) && AllAdmissible(rx, 0, s, isn, [Piece(s, isn, 0, 1)])
      && |Run(rx, 0, s, isn, [Piece(s, isn, 0, 1)]).announced| == 11
  {
    hide U32, TrimHole, Receive, Deliver, Step, Around;
    var rx, e := Installed(100, isn, buf, U32(isn + 1), 10), Piece(s, isn, 0, 1);
    assert isn + 0 == isn;
    NextPiece(rx, 0, s, isn);
    assert Deliver(rx, [s[0]]).1 == 11 && |Deliver(rx, [s[0]]).0.buf| == 100 by { OneThenTen(rx, isn, s[0]); }
    OneEvent(rx, s, isn, e);
  }

  lemma OneThenTen(rx: Rx, isn: nat, x: Byte)
    requires Fresh(rx, isn) && Sane(rx) && rx.len == 100 && rx.oooStart == U32(isn + 1) && rx.oooLen == 10
    ensures Deliver(rx, [x]).1 == 11 && |Deliver(rx, [x]).0.buf| == 100
  {
    hide U32, MergeOutOfOrder, TrimHole;
    var rx1 := Advance(rx.(buf := Write(rx.buf, rx.nextPos, [x])), 1);
    U32Absorb(isn, 1);
    U32Near(rx1.nextSeq);
    MergeAhead(rx1, 0);
  }

  lemma OneEvent(rx: Rx, s: seq<Byte>, isn: nat, e: Event)
    requires Sane(rx) && Admissible(rx, 0, s, isn, e) && e.Arrive? && |Receive(rx, e.seg).rx.buf| > 0
    ensures AllAdmissible(rx, 0, s, isn, [e]) && |Run(rx, 0, s, isn, [e]).announced| == Receive(rx, e.seg).bump
  {
    hide Step, U32, TrimHole, Receive, Around;
    StepIs(rx, e);
    var r := Step(rx, e);
    if Sane(r.0) {
      RunNone(r.0, |r.1|, s, isn);
    }
    RunCons(rx, 0, s, isn, e, []);
    assert [e] + [] == [e];
  }

  /** Ten bytes left over, five before the new stream and five in it: one in-order byte makes the receiver
      announce 5, four of them never received. */
  lemma LeftEdgeExample(isn: nat, buf: seq<Byte>, s: seq<Byte>)
    requires |buf| == 100 && |s| == 1
    ensures var rx := Installed(100, isn, buf, U32(U32(isn) - 5), 10);
      && Sane(rx) && AllAdmissible(rx, 0, s, isn, [Piece(s, isn, 0, 1)])
      && |Run(rx, 0, s, isn, [Piece(s, isn, 0, 1)]).announced| == 5
  {
    hide U32, TrimHole, Receive, Deliver, Step, Around;
    var rx, e := Installed(100, isn, buf, U32(U32(isn) - 5), 10), Piece(s, isn, 0, 1);
    assert isn + 0 == isn;
    NextPiece(rx, 0, s, isn);
    BehindStep(rx, isn, 5, s[0]) by { Short(10); }
    OneEvent(rx, s, isn, e);
  }
}
