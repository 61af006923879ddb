/** Receive reliability over whole runs: any mix of segment arrivals (lost, duplicated, reordered,
    re-cut) and of buffer space returned by the application. */
module ReceiveRuns {
  import opened Arith
  import opened Circular
  import opened TcpCommon
  import opened FlowReceive
  import opened ReceiveReliability

  datatype Event = Arrive(seg: Segment, o: nat) | Release(k: nat)

  /** The offset of a received byte is below n or inside the stored interval. */
  predicate Has(a: Ideal, j: nat) {
    j < a.n || a.lo <= j < a.hi
  }

  /** The reference receiver never invents a byte, never goes back, never moves the right edge of
      the window, and takes every new byte that directly continues the stream and fits the window. */
  lemma IdealSound(a: Ideal, o: nat, len: nat, fin: bool)
    requires IdealOk(a) && (a.fin ==> a.lo == a.hi && (o + len <= a.n || len == 0))
    ensures var b := IdealReceive(a, o, len, fin);
      && IdealOk(b) && a.n <= b.n && (a.fin ==> b == a)
      && b.n + b.avail == a.n + a.avail
      && (forall j: nat :: Has(b, j) ==> Has(a, j) || o <= j < o + len)
      && (!a.fin && o <= a.n <= o + len ==> b.n >= Min(o + len, a.n + a.avail))
      && (!a.fin && fin && o <= a.n && b.n == o + len && b.lo == b.hi && !b.stale ==> b.fin)
  {
  }

  /** Payload out of order is kept exactly if nothing is stored yet or it touches what is stored, and nothing stored is
      lost to it. */
  lemma OutOfOrderKept(a: Ideal, o: nat, len: nat, fin: bool, j: nat)
    requires IdealOk(a) && !a.fin && !a.stale && a.n < o <= a.n + a.avail && len > 0
    ensures var b, e := IdealReceive(a, o, len, fin), Min(o + len, a.n + a.avail);
      Has(b, j) <==> Has(a, j) || (o <= j < e && (a.lo == a.hi || e == a.lo || o == a.hi))
  {
  }

  /** When a segment closes the gap to a stored interval of less than 2^16 bytes, the stream
      advances past the whole interval. */
  lemma GapClosed(a: Ideal, o: nat, len: nat, fin: bool)
    requires IdealOk(a) && !a.fin && a.lo < a.hi < a.lo + W16
    requires o <= a.n && a.lo <= o + len
    ensures IdealReceive(a, o, len, fin).n >= a.hi
  {
  }

  /** After n announced bytes: a segment the sender of s may send, close enough not to be confused with
      others on the 32-bit circle and outside the trimming hole; or buffer space coming back. */
  ghost predicate Admissible(rx: Rx, n: nat, s: seq<Byte>, isn: nat, e: Event) {
    match e
    case Arrive(seg, o) =>
      && CutFrom(seg, s, isn, o) && !InHole(rx, seg)
      && Unaliased(o, |seg.payload|, n + if rx.fin then 1 else 0, rx.avail)
    case Release(k) => k <= rx.len - rx.avail
  }

  function IdealStep(a: Ideal, e: Event): Ideal
    requires IdealOk(a)
  {
    match e
    case Arrive(seg, o) => IdealReceive(a, o, |seg.payload|, seg.fin)
    case Release(k) => a.(avail := a.avail + k)
  }

  /** The registers after an event, and the bytes announced to the application by it. */
  ghost function Step(rx: Rx, e: Event): (Rx, seq<Byte>)
    requires Sane(rx) && (e.Arrive? ==> SegmentValid(e.seg))
  {
    match e
    case Arrive(seg, o) =>
      var r := Receive(rx, seg);
      (r.rx, if |r.rx.buf| > 0 then Around(r.rx.buf, rx.nextPos, r.bump) else [])
    case Release(k) => (rx.(avail := rx.avail + k), [])
  }

  lemma StepValid(rx: Rx, n: nat, s: seq<Byte>, isn: nat, e: Event)
    requires RxValid(rx) && Admissible(rx, n, s, isn, e)
    ensures RxValid(Step(rx, e).0)
  {
    hide U32, Cell, Receive, Around;
    if e.Arrive? {
      ReceiveKeepsValidIff(rx, e.seg);
    }
  }

  lemma StepRefines(rx: Rx, a: Ideal, s: seq<Byte>, isn: nat, e: Event)
    requires RxValid(rx) && Refines(rx, a, s, isn) && Admissible(rx, a.n, s, isn, e)
    ensures var r, b := Step(rx, e), IdealStep(a, e);
      && Refines(r.0, b, s, isn)
      && a.n <= b.n <= |s| && r.1 == s[a.n..b.n]
  {
    hide U32, Cell, Receive, IdealReceive, Read, Around;
    match e
    case Arrive(seg, o) =>
      ReceiveRefines(rx, a, s, isn, seg, o);
      AroundRead(Receive(rx, seg).rx.buf, rx.nextPos, Receive(rx, seg).bump);
    case Release(k) =>
  }

  /** Every event of the run is admissible in the state it meets.  The run ends where a register leaves its
      range, which the source asserts does not happen. */
  ghost predicate AllAdmissible(rx: Rx, n: nat, s: seq<Byte>, isn: nat, evs: seq<Event>)
    requires Sane(rx)
    decreases |evs|
  {
    |evs| > 0 ==>
      && Admissible(rx, n, s, isn, evs[0])
      && var r := Step(rx, evs[0]);
         Sane(r.0) ==> AllAdmissible(r.0, n + |r.1|, s, isn, evs[1..])
  }

  datatype Outcome = Outcome(rx: Rx, announced: seq<Byte>)

  /** Final registers and everything announced to the application, in order. */
  ghost function Run(rx: Rx, n: nat, s: seq<Byte>, isn: nat, evs: seq<Event>): Outcome
    requires Sane(rx) && AllAdmissible(rx, n, s, isn, evs)
    decreases |evs|
  {
    if |evs| == 0 then Outcome(rx, [])
    else
      var (rx1, bytes) := Step(rx, evs[0]);
      var rest := if Sane(rx1) then Run(rx1, n + |bytes|, s, isn, evs[1..]) else Outcome(rx1, []);
      rest.(announced := bytes + rest.announced)
  }

  lemma RunStep(rx: Rx, n: nat, s: seq<Byte>, isn: nat, evs: seq<Event>)
    requires Sane(rx) && AllAdmissible(rx, n, s, isn, evs)
    ensures |evs| == 0 ==> Run(rx, n, s, isn, evs) == Outcome(rx, [])
    ensures |evs| > 0 ==> var r := Step(rx, evs[0]);
      && Admissible(rx, n, s, isn, evs[0])
      && (Sane(r.0) ==>
           && AllAdmissible(r.0, n + |r.1|, s, isn, evs[1..])
           && var rest := Run(r.0, n + |r.1|, s, isn, evs[1..]);
              Run(rx, n, s, isn, evs) == Outcome(rest.rx, r.1 + rest.announced))
  {
    hide Sane, Step, Admissible;
  }

  /** Over every run, the announced bytes are exactly the next stretch of the sender's stream. */
  lemma {:induction false} RunDelivers(rx: Rx, a: Ideal, s: seq<Byte>, isn: nat, evs: seq<Event>) returns (b: Ideal)
    requires RxValid(rx) && Refines(rx, a, s, isn) && AllAdmissible(rx, a.n, s, isn, evs)
    ensures var r := Run(rx, a.n, s, isn, evs);
      && Refines(r.rx, b, s, isn)
      && a.n <= b.n <= |s| && r.announced == s[a.n..b.n]
    decreases |evs|
  {
    hide U32, Step, IdealStep, Refines, RxValid, Sane, AllAdmissible, Run, TrimHole, Cell;
    Registers(rx, a, s, isn);
    InRange(rx);
    RunStep(rx, a.n, s, isn, evs);
    if |evs| == 0 {
      b := a;
    } else {
      StepValid(rx, a.n, s, isn, evs[0]);
      InRange(Step(rx, evs[0]).0);
      StepRefines(rx, a, s, isn, evs[0]);
      b := RunDelivers(Step(rx, evs[0]).0, IdealStep(a, evs[0]), s, isn, evs[1..]);
    }
  }

  /** A newly installed flow: empty buffer, full window, and the out-of-order registers as the previous
      flow of the slot left them. */
  function Installed(len: nat, isn: nat, buf: seq<Byte>, oooStart: nat, oooLen: nat): Rx {
    Rx(len, len, 0, U32(isn), oooStart, oooLen, false, buf)
  }

  /** Nothing was left over, or it reaches into no part of the new buffer. */
  predicate LeftAside(len: nat, isn: nat, oooStart: nat, oooLen: nat) {
    oooLen == 0 || (Ahead(U32(isn), oooStart) > len && Ahead(U32(isn), oooStart) + oooLen <= W32)
  }

  function Start(len: nat, oooLen: nat): Ideal {
    Ideal(0, len, 0, 0, false, oooLen > 0)
  }

  lemma InstalledRefines(len: nat, isn: nat, buf: seq<Byte>, oooStart: nat, oooLen: nat, s: seq<Byte>)
    requires 0 < len == |buf| < HALF32 && oooStart < W32 && LeftAside(len, isn, oooStart, oooLen)
    ensures RxValid(Installed(len, isn, buf, oooStart, oooLen))
    ensures Refines(Installed(len, isn, buf, oooStart, oooLen), Start(len, oooLen), s, isn)
  {
  }

  /** Everything announced is a prefix of the stream, and all of it once its end is reported. */
  ghost predicate PrefixOnly(rx: Rx, s: seq<Byte>, isn: nat, evs: seq<Event>)
    requires Sane(rx)
  {
    AllAdmissible(rx, 0, s, isn, evs) ==>
      var r := Run(rx, 0, s, isn, evs);
      r.announced <= s && (r.rx.fin ==> r.announced == s)
  }

  /** From connection setup on, what the application is told to read is always a prefix of the
      sender's stream, whatever the network does to its segments; and end of stream is reported
      only after the whole stream. */
  lemma StreamPrefix(len: nat, isn: nat, buf: seq<Byte>, oooStart: nat, oooLen: nat, s: seq<Byte>, evs: seq<Event>)
    requires 0 < len == |buf| < HALF32 && oooStart < W32 && LeftAside(len, isn, oooStart, oooLen)
    ensures PrefixOnly(Installed(len, isn, buf, oooStart, oooLen), s, isn, evs)
  {
    hide U32, Run;
    InstalledRefines(len, isn, buf, oooStart, oooLen, s);
    var rx := Installed(len, isn, buf, oooStart, oooLen);
    if AllAdmissible(rx, 0, s, isn, evs) {
      var b := RunDelivers(rx, Start(len, oooLen), s, isn, evs);
    }
  }
}
