/** Why the receive buffer must be no longer than the transmit buffer: with a longer one, receiving a buffer
    full, reading it and giving it back ends in a refused bump. */
module BufferMismatch {
  import opened Arith
  import opened Circular
  import opened TcpCommon
  import opened FlowReceive
  import opened ReceiveReliability
  import opened FlowTransmit
  import opened TransmitReliability
  import opened FlowState
  import opened LibConn
  import C = Connection
  import opened ConnectionRuns

  /** The steps sts, none of which takes a bump, lead from x to x'. */
  ghost predicate Leads(e: Env, x: World, sts: seq<C.Step>, x': World)
    decreases |sts|
  {
    && C.Base(e, x)
    && if |sts| == 0 then x == x'
       else
         && C.Enabled(e, x, sts[0]) && !sts[0].TakeBump?
         && Leads(e, Next(e, x, sts[0]).0, sts[1..], x')
  }

  lemma {:induction false} LeadsOn(e: Env, x: World, sts: seq<C.Step>, x': World, st: C.Step)
    requires Leads(e, x, sts, x') && C.Base(e, x') && C.Enabled(e, x', st) && !st.TakeBump?
    ensures Leads(e, x, sts + [st], Next(e, x', st).0) && C.Base(e, Next(e, x', st).0)
    decreases |sts|
  {
    hide C.Base, Next, C.Enabled;
    StepBase(e, x', st);
    if |sts| > 0 {
      LeadsOn(e, Next(e, x, sts[0]).0, sts[1..], x', st);
      assert (sts + [st])[1..] == sts[1..] + [st];
    } else {
      assert sts + [st] == [st] && [st][1..] == [];
    }
  }

  ghost function Remote(r: nat): Env {
    C.Env(Zeros(r), 0, 0)
  }

  function Wrap(j: nat, r: nat): nat {
    if j == r then 0 else j
  }

  /** j bytes of the remote stream were received, announced and read, none of their space is given back. */
  ghost function ReadSoFar(r: nat, t: nat, j: nat): World
    requires j <= r
  {
    C.World(Flow(Rx(r, r - j, Wrap(j, r), j, 0, 0, false, Zeros(r)),
                 Tx(t, 0, 0, 0, 0, if j == 0 then r else 0, 0, false, Zeros(t)), 0, false),
            Conn(Open, r, Wrap(j, r), 0, j, t, 0, 0, 0, 0, 0, j > r / 4, false, false, false, false),
            [], [], Ideal(j, r - j, 0, 0, false, false), Window(0, 0, 0, false), [])
  }

  /** One more byte. */
  function NextByte(j: nat): Segment
    requires j < W32
  {
    Segment(j, 0, 0, false, false, false, false, [0])
  }

  /** It has arrived. */
  ghost function Arrived(r: nat, t: nat, j: nat): World
    requires j < r
  {
    var x, y := ReadSoFar(r, t, j), ReadSoFar(r, t, j + 1);
    x.(flow := y.flow, a := y.a, arx := [Update(1, 0, false)])
  }

  /** It was announced to the application. */
  ghost function Announced(r: nat, t: nat, j: nat): World
    requires j < r
  {
    var x, y := Arrived(r, t, j), ReadSoFar(r, t, j + 1);
    x.(arx := [], conn := x.conn.(rxbHead := Wrap(j + 1, r), rxbUsed := 1))
  }

  lemma ByteDelivered(r: nat, j: nat)
    requires j < r < HALF32
    ensures var rx := ReadSoFar(r, 1, j).flow.rx;
      && Sane(rx) && !InHole(rx, NextByte(j))
      && Receive(rx, NextByte(j)) == Received(ReadSoFar(r, 1, j + 1).flow.rx, 1, false, true, true)
  {
    hide U32, TrimRxBuf, TrimHole;
    var rx := ReadSoFar(r, 1, j).flow.rx;
    assert U32(0 + j) == j && U32(j) == j && U32(j + 1) == j + 1 by { U32Near(j); U32Near(j + 1); }
    InsideWindowNoHole(0, j, 1, j, r - j);
    TrimOffsets(0, j, 1, j, r - j);
    assert NextByte(j).payload[0..1] == [0];
    assert Write(Zeros(r), j, [0]) == Zeros(r);
  }

  lemma Arrives(r: nat, t: nat, j: nat)
    requires j < r < HALF32 && 0 < t < HALF32 && C.Base(Remote(r), ReadSoFar(r, t, j))
    ensures var e, x, st := Remote(r), ReadSoFar(r, t, j), C.Arrive(NextByte(j), j);
      C.Enabled(e, x, st) && Next(e, x, st).0 == Arrived(r, t, j)
  {
    hide U32, Receive, TrimHole, C.Base;
    var e, x, st := Remote(r), ReadSoFar(r, t, j), C.Arrive(NextByte(j), j);
    ByteDelivered(r, j);
    assert U32(0 + j) == j by { U32Near(j); }
    assert Zeros(r)[j..j + 1] == [0];
    StepReady(e, x, C.SendSegment);
    assert [] + [Update(1, 0, false)] == [Update(1, 0, false)];
  }

  lemma Announces(r: nat, t: nat, j: nat)
    requires j < r < HALF32 && 0 < t < HALF32 && C.Base(Remote(r), Arrived(r, t, j))
    ensures var e, x, st := Remote(r), Arrived(r, t, j), C.TakeUpdate(1);
      C.Enabled(e, x, st) && Next(e, x, st).0 == Announced(r, t, j)
  {
    hide C.Base;
    var e, x := Remote(r), Arrived(r, t, j);
    StepReady(e, x, C.TakeUpdate(1));
    assert [Update(1, 0, false)][1..] == [];
  }

  lemma Reads(r: nat, t: nat, j: nat)
    requires j < r < HALF32 && 0 < t < HALF32 && C.Base(Remote(r), Announced(r, t, j))
    ensures var e, x, st := Remote(r), Announced(r, t, j), C.ReadBytes(1);
      C.Enabled(e, x, st) && Next(e, x, st).0 == ReadSoFar(r, t, j + 1)
  {
    hide C.Base, Read;
    StepReady(Remote(r), Announced(r, t, j), C.ReadBytes(1));
  }

  /** All of the buffer is received and read. */
  lemma {:induction false} FillsUp(r: nat, t: nat, x: World, sts: seq<C.Step>, j: nat) returns (sts': seq<C.Step>)
    requires j <= r < HALF32 && 0 < t < HALF32
    requires Leads(Remote(r), x, sts, ReadSoFar(r, t, j)) && C.Base(Remote(r), ReadSoFar(r, t, j))
    ensures Leads(Remote(r), x, sts', ReadSoFar(r, t, r)) && C.Base(Remote(r), ReadSoFar(r, t, r))
    decreases r - j
  {
    hide C.Base, Next, C.Enabled, Leads, ReadSoFar, Arrived, Announced;
    sts' := sts;
    if j < r {
      var e := Remote(r);
      Arrives(r, t, j);
      LeadsOn(e, x, sts', ReadSoFar(r, t, j), C.Arrive(NextByte(j), j));
      sts' := sts' + [C.Arrive(NextByte(j), j)];
      Announces(r, t, j);
      LeadsOn(e, x, sts', Arrived(r, t, j), C.TakeUpdate(1));
      sts' := sts' + [C.TakeUpdate(1)];
      Reads(r, t, j);
      LeadsOn(e, x, sts', Announced(r, t, j), C.ReadBytes(1));
      sts' := sts' + [C.ReadBytes(1)];
      sts' := FillsUp(r, t, x, sts', j + 1);
    }
  }

  ghost function Flushed(r: nat, t: nat): World {
    var x := ReadSoFar(r, t, r);
    x.(conn := x.conn.(rxbBump := 0, bumpPending := false, bumpSeq := 1), atx := [AppBump(r, 0, 0, false)])
  }

  lemma Opens(r: nat, t: nat)
    requires 0 < r < HALF32 && 0 < t < HALF32
    ensures var e, x := Remote(r), Initial(Remote(r), Zeros(r), Zeros(t), Leftover(0, 0, 0));
      && C.Base(e, x) && C.Enabled(e, x, C.Opened(1)) && Next(e, x, C.Opened(1)).0 == ReadSoFar(r, t, 0)
  {
    hide C.Base;
    InitialInv(Remote(r), Zeros(r), Zeros(t), Leftover(0, 0, 0));
  }

  lemma Flushes(r: nat, t: nat)
    requires 0 < r < HALF32 && 0 < t < HALF32 && C.Base(Remote(r), ReadSoFar(r, t, r))
    ensures var e, x := Remote(r), ReadSoFar(r, t, r);
      C.Enabled(e, x, C.FlushBumps) && Next(e, x, C.FlushBumps).0 == Flushed(r, t)
  {
    hide C.Base;
    assert [] + [AppBump(r, 0, 0, false)] == [AppBump(r, 0, 0, false)];
  }

  /** For every receive buffer longer than the transmit buffer there is a run from connection setup after which
      the fast path refuses a bump of the library. */
  lemma RefusedUnlessFits(r: nat, t: nat) returns (sts: seq<C.Step>, x: World)
    requires 0 < t < r < HALF32
    ensures Leads(Remote(r), Initial(Remote(r), Zeros(r), Zeros(t), Leftover(0, 0, 0)), sts, x)
    ensures C.Base(Remote(r), x) && C.Enabled(Remote(r), x, C.TakeBump)
    ensures Next(Remote(r), x, C.TakeBump).1 == C.Refused
  {
    hide C.Base, Next, C.Enabled, Leads, ReadSoFar, Flushed, Initial;
    var e := Remote(r);
    var x0 := Initial(e, Zeros(r), Zeros(t), Leftover(0, 0, 0));
    Opens(r, t);
    assert Leads(e, x0, [], x0) by { LeadsNowhere(e, x0); }
    LeadsOn(e, x0, [], x0, C.Opened(1));
    sts := FillsUp(r, t, x0, [] + [C.Opened(1)], 0);
    Flushes(r, t);
    LeadsOn(e, x0, sts, ReadSoFar(r, t, r), C.FlushBumps);
    sts, x := sts + [C.FlushBumps], Flushed(r, t);
    Refuses(r, t);
  }

  lemma LeadsNowhere(e: Env, x: World)
    requires C.Base(e, x)
    ensures Leads(e, x, [], x)
  {
  }

  lemma Refuses(r: nat, t: nat)
    requires 0 < t < r < HALF32 && C.Base(Remote(r), Flushed(r, t))
    ensures C.Enabled(Remote(r), Flushed(r, t), C.TakeBump) && Next(Remote(r), Flushed(r, t), C.TakeBump).1 == C.Refused
  {
    hide C.Base, U32;
    U32Near(0);
    U32Near(r);
  }
}
