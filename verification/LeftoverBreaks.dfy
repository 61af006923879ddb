/** Leftover out-of-order intervals that do harm: for each, a stream and a run in which the receiver
    announces bytes it never got. */
module LeftoverBreaks {
  import opened Arith
  import opened Circular
  import opened TcpCommon
  import opened FlowReceive
  import opened ReceiveReliability
  import opened ReceiveRuns
  import opened Leftovers

  /** The bytes of s from offset j up to g, one segment each. */
  function OneByOne(s: seq<Byte>, isn: nat, j: nat, g: nat): seq<Event>
    requires g <= |s|
    decreases g - j
  {
    if j >= g then [] else [Piece(s, isn, j, 1)] + OneByOne(s, isn, j + 1, g)
  }

  /** Run an event, then the others. */
  lemma RunCons(rx: Rx, n: nat, s: seq<Byte>, isn: nat, e: Event, evs: seq<Event>)
    requires Sane(rx) && Admissible(rx, n, s, isn, e)
    requires var r := Step(rx, e); Sane(r.0) ==> AllAdmissible(r.0, n + |r.1|, s, isn, evs)
    ensures AllAdmissible(rx, n, s, isn, [e] + evs)
    ensures var r := Step(rx, e);
      Run(rx, n, s, isn, [e] + evs).announced
      == r.1 + if Sane(r.0) then Run(r.0, n + |r.1|, s, isn, evs).announced else []
  {
    hide Step, Admissible, Sane;
    assert ([e] + evs)[1..] == evs;
  }

  lemma RunNone(rx: Rx, n: nat, s: seq<Byte>, isn: nat)
    requires Sane(rx)
    ensures AllAdmissible(rx, n, s, isn, []) && Run(rx, n, s, isn, []).announced == []
  {
  }

  lemma StepIs(rx: Rx, e: Event)
    requires Sane(rx) && e.Arrive? && SegmentValid(e.seg)
    ensures var r := Receive(rx, e.seg);
      Step(rx, e).0 == r.rx && (|r.rx.buf| > 0 ==> Step(rx, e).1 == Around(r.rx.buf, rx.nextPos, r.bump))
  {
    hide Receive;
  }

  // ---- An interval ahead of the stream -----------------------------------------------------

  /** n bytes received; an interval starts at offset g, with room before the right edge of the window, or is too
      long for 16 bits. */
  predicate Lurking(rx: Rx, isn: nat, n: nat, g: nat) {
    && Sane(rx) && !rx.fin && rx.nextSeq == U32(isn + n) && rx.oooStart == U32(isn + g) && rx.oooLen > 0
    && 0 < g - n <= rx.avail && (g - n < rx.avail || rx.oooLen >= W16)
  }

  /** At least so much of it gets announced. */
  function Surplus(oooLen: nat): nat {
    if oooLen >= W16 then W16 else 1
  }

  /** It survives every delivery that does not reach it, and is announced by the one that does. */
  lemma LurkStep(rx: Rx, isn: nat, n: nat, g: nat, x: Byte)
    requires Lurking(rx, isn, n, g)
    ensures var r := Deliver(rx, [x]);
      && |r.0.buf| == |rx.buf|
      && if n + 1 < g then r.1 == 1 && Lurking(r.0, isn, n + 1, g) && Surplus(r.0.oooLen) >= Surplus(rx.oooLen)
         else r.1 >= 1 + Surplus(rx.oooLen)
  {
    hide U32, Write, IntervalInHole, MergeOutOfOrder;
    var rx1 := Advance(rx.(buf := Write(rx.buf, rx.nextPos, [x])), 1);
    U32Absorb(isn + n, 1);
    U32Absorb(isn + (n + 1), g - n - 1);
    assert isn + n + 1 == isn + (n + 1) && isn + (n + 1) + (g - n - 1) == isn + g;
    MergeAhead(rx1, g - n - 1);
  }

  lemma {:induction false} Lurks(rx: Rx, isn: nat, n: nat, g: nat, s: seq<Byte>)
    requires Lurking(rx, isn, n, g) && g <= |s|
    ensures AllAdmissible(rx, n, s, isn, OneByOne(s, isn, n, g))
    ensures n + |Run(rx, n, s, isn, OneByOne(s, isn, n, g)).announced| >= g + Surplus(rx.oooLen)
    decreases g - n
  {
    hide U32, Receive, Deliver, Step, Around, Surplus, CutFrom, Unaliased, TrimHole, Run, AllAdmissible;
    var e, rest := Piece(s, isn, n, 1), OneByOne(s, isn, n + 1, g);
    NextPiece(rx, n, s, isn);
    LurkStep(rx, isn, n, g, s[n]);
    StepIs(rx, e);
    var r := Step(rx, e);
    if n + 1 < g {
      Lurks(r.0, isn, n + 1, g, s);
    } else {
      assert rest == [];
      if Sane(r.0) {
        RunNone(r.0, n + |r.1|, s, isn);
      }
    }
    RunCons(rx, n, s, isn, e, rest);
  }

  /** The receiver is told to read more than the whole stream. */
  ghost predicate Breaks(rx: Rx, s: seq<Byte>, isn: nat, evs: seq<Event>) {
    Sane(rx) && !PrefixOnly(rx, s, isn, evs)
  }

  lemma TooMuch(rx: Rx, s: seq<Byte>, isn: nat, evs: seq<Event>)
    requires Sane(rx) && AllAdmissible(rx, 0, s, isn, evs) && |Run(rx, 0, s, isn, evs).announced| > |s|
    ensures Breaks(rx, s, isn, evs)
  {
  }

  /** A leftover interval that starts inside the new window, or right behind it if longer than 2^16: it is
      announced as soon as the gap before it is filled. */
  lemma AheadBreaks(rx: Rx, isn: nat, g: nat) returns (s: seq<Byte>, evs: seq<Event>)
    requires Lurking(rx, isn, 0, g)
    ensures Breaks(rx, s, isn, evs)
  {
    hide U32, Lurking, Run, AllAdmissible;
    s := Zeros(g);
    evs := OneByOne(s, isn, 0, g);
    Lurks(rx, isn, 0, g, s);
    LurkingSane(rx, isn, 0, g);
    TooMuch(rx, s, isn, evs);
  }

  lemma LurkingSane(rx: Rx, isn: nat, n: nat, g: nat)
    requires Lurking(rx, isn, n, g)
    ensures Sane(rx)
  {
  }

  // ---- An interval right behind the window ---------------------------------------------------

  /** Bytes stored before it, up to the end of the buffer, make it too long for 16 bits. */
  lemma EdgeGrowsBreaks(rx: Rx, isn: nat) returns (s: seq<Byte>, evs: seq<Event>)
    requires Fresh(rx, isn) && rx.oooStart == U32(isn + rx.len) && rx.oooLen < W16 < rx.oooLen + rx.len
    ensures Breaks(rx, s, isn, evs)
  {
    hide U32, Receive, Step, Around, CutFrom, Unaliased, TrimHole, Run, AllAdmissible, SeqWrite;
    var len, k := rx.len, W16 - rx.oooLen;
    var g := len - k;
    s := Zeros(len);
    assert isn + 0 == isn;
    LaterPiece(rx, 0, s, isn, g, k);
    assert U32(U32(isn + g) + k) == rx.oooStart by {
      U32Absorb(isn + g, k);
      assert isn + g + k == isn + len;
    }
    var e, rest := Piece(s, isn, g, k), OneByOne(s, isn, 0, g);
    StepIs(rx, e);
    var rx1 := Step(rx, e).0;
    assert rx1 == rx.(oooStart := U32(isn + g), oooLen := W16, buf := rx1.buf);
    Lurks(rx1, isn, 0, g, s);
    RunCons(rx, 0, s, isn, e, rest);
    evs := [e] + rest;
    TooMuch(rx, s, isn, evs);
  }

  /** In the hole of the trimming nothing is cut off: once the application has made room, the interval is inside
      the window. */
  lemma EdgeHoleBreaks(rx: Rx, isn: nat) returns (s: seq<Byte>, evs: seq<Event>)
    requires Fresh(rx, isn) && rx.oooStart == U32(isn + rx.len) && rx.oooLen < W16 && rx.len > 1
    requires U32(isn) + rx.len < W32 <= U32(isn) + rx.len + rx.oooLen
    ensures Breaks(rx, s, isn, evs)
  {
    hide U32, Receive, Step, Around, CutFrom, Unaliased, TrimHole, Run, AllAdmissible, Deliver;
    var len := rx.len;
    s := Zeros(len);
    assert isn + 0 == isn;
    var e, f, rest := Piece(s, isn, 0, 1), Release(1), OneByOne(s, isn, 1, len);
    NextPiece(rx, 0, s, isn);
    EdgeHoleStep(rx, isn, s[0]);
    StepIs(rx, e);
    var rx1 := Step(rx, e).0;
    var rx2 := rx1.(avail := len);
    ReleaseOne(rx1);
    Lurks(rx2, isn, 1, len, s);
    RunCons(rx1, 1, s, isn, f, rest);
    RunCons(rx, 0, s, isn, e, [f] + rest);
    evs := [e] + ([f] + rest);
    TooMuch(rx, s, isn, evs);
  }

  lemma ReleaseOne(rx: Rx)
    requires Sane(rx)
    ensures Step(rx, Release(1)) == (rx.(avail := rx.avail + 1), [])
  {
  }

  lemma EdgeHoleStep(rx: Rx, isn: nat, x: Byte)
    requires Fresh(rx, isn) && rx.oooStart == U32(isn + rx.len) && rx.oooLen < W16 && rx.len > 1
    requires U32(isn) + rx.len < W32 <= U32(isn) + rx.len + rx.oooLen
    ensures var r := Deliver(rx, [x]);
      r.1 == 1 && Sane(r.0) && r.0 == rx.(avail := rx.len - 1, nextPos := 1, nextSeq := U32(isn + 1), buf := r.0.buf)
  {
    hide U32, Write, MergeOutOfOrder;
    var len := rx.len;
    var rx1 := Advance(rx.(buf := Write(rx.buf, rx.nextPos, [x])), 1);
    U32Absorb(isn, 1);
    U32Absorb(isn, len);
    U32Absorb(isn + 1, len - 1);
    assert isn + 1 + (len - 1) == isn + len;
    U32Near(U32(isn) + 1);
    U32Near(U32(isn) + len);
    U32Near(rx1.nextSeq + rx1.avail);
    U32Near(rx.oooStart + rx.oooLen);
    MergeAhead(rx1, len - 1);
  }

  // ---- An interval that starts before the stream ---------------------------------------------

  /** The first byte of the stream joins it. */
  lemma BehindStep(rx: Rx, isn: nat, b: nat, x: Byte)
    requires Behind(rx, isn, b) && U16(rx.oooLen) > b && (rx.oooLen >= W16 || (rx.oooLen - b > 1 && rx.len > 1))
    ensures var r := Deliver(rx, [x]);
      && |r.0.buf| == |rx.buf| && r.0.buf == Write(rx.buf, 0, [x]) && r.1 > 1
      && (rx.oooLen - b <= rx.len ==> r.1 == rx.oooLen - b)
  {
    hide U32, Write, MergeOutOfOrder;
    var rx1 := Advance(rx.(buf := Write(rx.buf, rx.nextPos, [x])), 1);
    U32Near(U32(isn) - b);
    U32Near(U32(isn) + 1);
    U32Near(rx1.nextSeq - (b + 1));
    MergeBehind(rx1, b + 1);
  }

  /** One in-order byte makes the part of it inside the stream announced. */
  lemma BehindBreaks(rx: Rx, isn: nat, b: nat) returns (s: seq<Byte>, evs: seq<Event>)
    requires Behind(rx, isn, b) && U16(rx.oooLen) > b && (rx.oooLen >= W16 || (rx.oooLen - b > 1 && rx.len > 1))
    ensures Breaks(rx, s, isn, evs)
  {
    hide U32, Receive, Step, Around, CutFrom, Unaliased, TrimHole, Run, AllAdmissible, Deliver;
    s := Zeros(1);
    assert isn + 0 == isn;
    var e := Piece(s, isn, 0, 1);
    NextPiece(rx, 0, s, isn);
    BehindStep(rx, isn, b, s[0]);
    StepIs(rx, e);
    var r := Step(rx, e);
    if Sane(r.0) {
      RunNone(r.0, |r.1|, s, isn);
    }
    RunCons(rx, 0, s, isn, e, []);
    evs := [e] + [];
    TooMuch(rx, s, isn, evs);
  }

  /** Bytes stored behind it make its length modulo 2^16 reach the stream. */
  lemma BehindGrowsBreaks(rx: Rx, isn: nat, b: nat) returns (s: seq<Byte>, evs: seq<Event>)
    requires Behind(rx, isn, b) && rx.oooLen >= W16 && b < W16 - 1 && U16(rx.oooLen) <= b
    requires rx.oooLen - b <= rx.len && U16(rx.oooLen) + (rx.len - (rx.oooLen - b)) > b
    ensures Breaks(rx, s, isn, evs)
  {
    hide U32, Receive, Step, Around, CutFrom, Unaliased, TrimHole, Run, AllAdmissible, Deliver, Write, SeqWrite;
    var e0, k := rx.oooLen - b, b + 1 - U16(rx.oooLen);
    var other: Byte := if rx.buf[1] == 0 then 1 else 0;
    s := Zeros(e0 + k)[1 := other];
    assert isn + 0 == isn;
    var e, f := Piece(s, isn, e0, k), Piece(s, isn, 0, 1);
    LaterPiece(rx, 0, s, isn, e0, k);
    StepIs(rx, e);
    GrownBehind(rx, isn, b, s[e0..e0 + k]);
    var rx1 := Step(rx, e).0;
    NextPiece(rx1, 0, s, isn);
    BehindStep(rx1, isn, b, s[0]);
    StepIs(rx1, f);
    var r := Step(rx1, f);
    if Sane(r.0) {
      RunNone(r.0, |r.1|, s, isn);
    }
    RunCons(rx1, 0, s, isn, f, []);
    RunCons(rx, 0, s, isn, e, [f] + []);
    evs := [e] + ([f] + []);
    assert r.1[1] == r.0.buf[1] by { SecondCell(r.0.buf, |r.1|); }
    assert r.0.buf[1] == rx1.buf[1] by { Untouched(rx1.buf, 0, [s[0]], 1); }
    NotPrefix(rx, s, isn, evs, r.1);
  }

  lemma SecondCell(buf: seq<Byte>, n: nat)
    requires |buf| > 1 && n > 1
    ensures Around(buf, 0, n)[1] == buf[1]
  {
    assert Cell(0 + 1, |buf|) == 1;
  }

  lemma Untouched(buf: seq<Byte>, pos: nat, src: seq<Byte>, c: nat)
    requires pos < |buf| && c < |buf| && (pos + |src| <= c || (c < pos && pos + |src| <= |buf|))
    ensures Write(buf, pos, src)[c] == buf[c]
  {
  }

  lemma NotPrefix(rx: Rx, s: seq<Byte>, isn: nat, evs: seq<Event>, bytes: seq<Byte>)
    requires Sane(rx) && AllAdmissible(rx, 0, s, isn, evs) && bytes <= Run(rx, 0, s, isn, evs).announced
    requires |bytes| > 1 && |s| > 1 && bytes[1] != s[1]
    ensures Breaks(rx, s, isn, evs)
  {
  }

  /** Storing behind it. */
  lemma GrownBehind(rx: Rx, isn: nat, b: nat, p: seq<Byte>)
    requires Behind(rx, isn, b) && 0 < |p| && 1 < rx.oooLen - b && rx.oooLen - b + |p| <= rx.len
    requires Ahead(rx.nextSeq, U32(isn + (rx.oooLen - b))) == rx.oooLen - b
    ensures var rx' := AddOutOfOrder(rx, U32(isn + (rx.oooLen - b)), p);
      rx' == rx.(oooLen := rx.oooLen + |p|, buf := rx'.buf) && |rx'.buf| == rx.len && rx'.buf[1] == rx.buf[1]
  {
    hide U32;
    var e, a := rx.oooLen - b, U32(isn);
    U32Absorb(isn, e);
    U32Near(a + e);
    U32Near(a - b);
    U32Near(U32(isn + e) + |p|);
    U32Near(rx.oooStart + rx.oooLen);
  }
}
