/** Is a sendable byte ever stranded?  The queue manager's byte count for a flow never falls below what the
    flow could send, once every firing of the current batch has been handed to the flow, provided no other
    flow shares its queue; fast_flows_packet picks the queue by the flow id cut to 16 bits. */
module Stranding {
  import opened Arith
  import opened Circular
  import opened TcpCommon
  import opened FlowReceive
  import opened ReceiveReliability
  import opened FlowTransmit
  import opened FlowState
  import opened LibConn
  import C = Connection
  import opened CreditConservation
  import opened ConnectionRuns

  /** The flow's id, in a table where ids below `flows` may be in use. */
  datatype Slot = Slot(id: nat, flows: nat)

  /** A connection, its queue's byte count, and the firings of the current batch not yet handed to
      the flow. */
  datatype Queued = Queued(world: World, avail: nat, fired: nat)

  ghost predicate Covered(e: Env, q: Queued) {
    C.Inv(e, q.world) && Sendable(q.world.flow.tx) <= q.avail + q.fired * TCP_MSS
  }

  /** The queue-manager request a connection step makes. */
  ghost function Request(e: Env, x: World, st: C.Step): Arm
    requires C.Inv(e, x) && C.Enabled(e, x, st)
  {
    match st
    case Arrive(seg, o) => Packet(x.flow, seg).arm
    case TakeBump => HandleBump(x.flow, x.atx[0]).arm
    case Retransmit => ArmIfMore(Sendable(x.flow.tx), Sendable(Retransmit(x.flow.tx)))
    case _ => Unchanged
  }

  /** The queue a packet of flow `id` arms: the id passes through a 16-bit variable. */
  function PacketQueue(id: nat): nat {
    U16(id)
  }

  /** poll_qman first collects a batch of firings (Fire, which takes min(avail, max_chunk) bytes off
      the queue), then calls fast_flows_qman once for each of them (SendSegment).  Other: a packet of another
      flow lets that flow send n bytes. */
  datatype Step = Fire | Does(st: C.Step) | Other(id: nat, n: nat)

  ghost predicate Enabled(e: Env, f: Slot, q: Queued, st: Step) {
    match st
    case Fire => q.avail > 0
    case Does(cst) => C.Enabled(e, q.world, cst) && (cst.SendSegment? ==> q.fired > 0)
    case Other(id, n) => id < f.flows && id != f.id && n > 0
  }

  function Armed(f: Slot, queue: nat, arm: Arm, avail: nat): nat {
    if arm.SetAvail? && queue == f.id then arm.bytes else avail
  }

  ghost function Next(e: Env, f: Slot, q: Queued, st: Step): Queued
    requires C.Inv(e, q.world) && Enabled(e, f, q, st)
  {
    match st
    case Fire => q.(avail := q.avail - Min(q.avail, TCP_MSS), fired := q.fired + 1)
    case Does(cst) =>
      var queue := if cst.Arrive? then PacketQueue(f.id) else f.id;
      Queued(ConnectionRuns.Next(e, q.world, cst).0, Armed(f, queue, Request(e, q.world, cst), q.avail),
             if cst.SendSegment? then q.fired - 1 else q.fired)
    case Other(id, n) => q.(avail := Armed(f, PacketQueue(id), SetAvail(n), q.avail))
  }

  /** No other flow arms the flow's queue, and its own packets do. */
  predicate Exclusive(f: Slot) {
    f.id < W16 && f.flows <= f.id + W16
  }

  const FLOWST_NUM: nat := 128 * 1024

  /** With the flow table as large as it is, every flow shares its queue with another or arms another's. */
  lemma ExclusiveIff(f: Slot)
    ensures f.id < f.flows == FLOWST_NUM ==> !Exclusive(f)
    ensures Exclusive(f) <==> forall i: nat | i < f.flows || i == f.id :: PacketQueue(i) == f.id <==> i == f.id
  {
    assert PacketQueue(f.id + W16) == PacketQueue(f.id);
  }

  /** Whenever a step lets the flow send more than before, it asks the queue manager for exactly
      that many bytes; sending uses up what was fired. */
  lemma RequestCovers(e: Env, x: World, st: C.Step)
    requires C.Inv(e, x) && C.Enabled(e, x, st)
    ensures var before, after := Sendable(x.flow.tx), Sendable(ConnectionRuns.Next(e, x, st).0.flow.tx);
      && (!st.SendSegment? ==> match Request(e, x, st)
                               case Unchanged => after <= before
                               case SetAvail(n) => before < after == n)
      && (st.SendSegment? ==> after == before - Min(before, TCP_MSS) && Request(e, x, st) == Unchanged)
  {
    hide C.Inv, C.Base, ConnectionRuns.Next, Request, Sendable, C.Enabled;
    if st.SendSegment? {
      SendCovers(e, x);
    } else if st.Arrive? {
      ArriveCovers(e, x, st);
    } else {
      OtherCovers(e, x, st);
    }
  }

  lemma SendCovers(e: Env, x: World)
    requires C.Inv(e, x) && C.Enabled(e, x, C.SendSegment)
    ensures var before, after := Sendable(x.flow.tx), Sendable(ConnectionRuns.Next(e, x, C.SendSegment).0.flow.tx);
      after == before - Min(before, TCP_MSS) && Request(e, x, C.SendSegment) == Unchanged
  {
    hide U32, C.Inv, C.Base;
    InvBase(e, x);
    StepReady(e, x, C.SendSegment);
    SendUses(x.flow.tx);
  }

  lemma ArriveCovers(e: Env, x: World, st: C.Step)
    requires C.Inv(e, x) && C.Enabled(e, x, st) && st.Arrive?
    ensures var before, after := Sendable(x.flow.tx), Sendable(ConnectionRuns.Next(e, x, st).0.flow.tx);
      match Request(e, x, st)
      case Unchanged => after <= before
      case SetAvail(n) => before < after == n
  {
    hide U32, C.Inv, ProcessAck, Receive, C.Base;
    InvBase(e, x);
    StepReady(e, x, st);
  }

  lemma OtherCovers(e: Env, x: World, st: C.Step)
    requires C.Inv(e, x) && C.Enabled(e, x, st) && !st.SendSegment? && !st.Arrive?
    ensures var before, after := Sendable(x.flow.tx), Sendable(ConnectionRuns.Next(e, x, st).0.flow.tx);
      match Request(e, x, st)
      case Unchanged => after <= before
      case SetAvail(n) => before < after == n
  {
    hide U32, C.Inv, Packet, Write, Read, TxUpdate, RxUpdate, ConnUpdate, TxAlloc2, C.Base;
    InvBase(e, x);
    StepReady(e, x, st);
    if st.TakeBump? {
      BumpNeverRefused(e, x);
    }
  }

  lemma SendUses(tx: Tx)
    requires TxValid(tx)
    ensures var r := Send(tx);
      r.Sending? ==> Sendable(r.tx) == Sendable(tx) - Min(Sendable(tx), TCP_MSS)
  {
  }

  lemma StepKeeps(e: Env, f: Slot, q: Queued, st: Step)
    requires C.Inv(e, q.world) && Enabled(e, f, q, st)
    ensures C.Inv(e, Next(e, f, q, st).world)
  {
    hide C.Inv, C.Base, ConnectionRuns.Next, Request, C.Enabled;
    if st.Does? {
      StepInv(e, q.world, st.st);
    }
  }

  lemma StepCovers(e: Env, f: Slot, q: Queued, st: Step)
    requires Covered(e, q) && Exclusive(f) && Enabled(e, f, q, st)
    ensures Covered(e, Next(e, f, q, st))
  {
    hide C.Inv, C.Base, ConnectionRuns.Next, Request, Sendable, C.Enabled;
    ExclusiveIff(f);
    StepKeeps(e, f, q, st);
    if st.Does? {
      RequestCovers(e, q.world, st.st);
    }
  }

  ghost predicate AllEnabled(e: Env, f: Slot, q: Queued, sts: seq<Step>)
    requires C.Inv(e, q.world)
    decreases |sts|
  {
    |sts| > 0 ==>
      && Enabled(e, f, q, sts[0])
      && (StepKeeps(e, f, q, sts[0]); AllEnabled(e, f, Next(e, f, q, sts[0]), sts[1..]))
  }

  ghost function Run(e: Env, f: Slot, q: Queued, sts: seq<Step>): Queued
    requires C.Inv(e, q.world) && AllEnabled(e, f, q, sts)
    decreases |sts|
  {
    if |sts| == 0 then q
    else StepKeeps(e, f, q, sts[0]); Run(e, f, Next(e, f, q, sts[0]), sts[1..])
  }

  lemma {:induction false} RunCovers(e: Env, f: Slot, q: Queued, sts: seq<Step>)
    requires Covered(e, q) && Exclusive(f) && AllEnabled(e, f, q, sts)
    ensures Covered(e, Run(e, f, q, sts))
    decreases |sts|
  {
    hide C.Inv, C.Base, Next, Enabled, Sendable;
    if |sts| > 0 {
      StepKeeps(e, f, q, sts[0]);
      StepCovers(e, f, q, sts[0]);
      RunCovers(e, f, Next(e, f, q, sts[0]), sts[1..]);
    }
  }

  /** At every batch boundary of every run of a flow that has its queue to itself, the queue holds at least
      what the flow could send: a flow that could send anything has a non-empty queue. */
  lemma NothingStranded(e: Env, f: Slot, q: Queued, sts: seq<Step>)
    requires Covered(e, q) && Exclusive(f) && AllEnabled(e, f, q, sts) && Run(e, f, q, sts).fired == 0
    ensures Run(e, f, q, sts).avail >= Sendable(Run(e, f, q, sts).world.flow.tx)
  {
    hide C.Inv, C.Base, Run, Sendable;
    RunCovers(e, f, q, sts);
  }

  // ---- The condition is exact ------------------------------------------------------------

  /** The run sts leads from q to q'. */
  ghost predicate Leads(e: Env, f: Slot, q: Queued, sts: seq<Step>, q': Queued) {
    && C.Inv(e, q.world) && C.Inv(e, q'.world)
    && AllEnabled(e, f, q, sts) && Run(e, f, q, sts) == q'
  }

  lemma {:induction false} LeadsOn(e: Env, f: Slot, q: Queued, sts: seq<Step>, q': Queued, st: Step)
    requires Leads(e, f, q, sts, q') && Enabled(e, f, q', st)
    ensures Leads(e, f, q, sts + [st], Next(e, f, q', st))
    decreases |sts|
  {
    hide C.Inv, C.Base, Next, Enabled;
    StepKeeps(e, f, q', st);
    if |sts| > 0 {
      StepKeeps(e, f, q, sts[0]);
      LeadsOn(e, f, Next(e, f, q, sts[0]), sts[1..], q', st);
      assert (sts + [st])[1..] == sts[1..] + [st];
    } else {
      assert sts + [st] == [st] && [st][1..] == [];
      assert AllEnabled(e, f, Next(e, f, q, st), []) && Run(e, f, Next(e, f, q, st), []) == Next(e, f, q, st);
    }
  }

  const NO_ENV: Env := C.Env([], 0, 0)

  /** A connection just installed with receive and transmit buffers of r and n bytes. */
  ghost function Begin(r: nat, n: nat): World
    requires 0 < r && 0 < n
  {
    Initial(NO_ENV, Zeros(r), Zeros(n), Leftover(0, 0, 0))
  }

  /** The application has reserved, filled and sent n bytes ... */
  ghost function Handed(r: nat, n: nat): World
    requires 0 < r && 0 < n
  {
    var x := Begin(r, n);
    x.(conn := x.conn.(status := Open, rxbLen := r, txbLen := n, txbSent := n, txbBump := n, bumpPending := true), t := Zeros(n))
  }

  /** ... and the fast path was told. */
  ghost function Loaded(r: nat, n: nat): World
    requires 0 < r && 0 < n
  {
    var x := Handed(r, n);
    x.(flow := x.flow.(tx := x.flow.tx.(avail := n)), conn := x.conn.(txbBump := 0, bumpPending := false, bumpSeq := 1),
       w := x.w.(tail := n))
  }

  lemma LoadSent(f: Slot, r: nat, n: nat) returns (sts: seq<Step>)
    requires 0 < r <= n < HALF32
    ensures Leads(NO_ENV, f, Queued(Begin(r, n), 0, 0), sts, Queued(Handed(r, n), 0, 0))
  {
    hide C.Inv, C.Base;
    var e, x0 := NO_ENV, Begin(r, n);
    InitialInv(e, Zeros(r), Zeros(n), Leftover(0, 0, 0));
    sts := [];
    var x1 := x0.(conn := x0.conn.(status := Open, rxbLen := r, txbLen := n));
    LeadsOn(e, f, Queued(x0, 0, 0), sts, Queued(x0, 0, 0), Does(C.Opened(1)));
    sts := sts + [Does(C.Opened(1))];
    assert Leads(e, f, Queued(x0, 0, 0), sts, Queued(x1, 0, 0));
    var x2 := x1.(conn := x1.conn.(txbAllocated := n));
    LeadsOn(e, f, Queued(x0, 0, 0), sts, Queued(x1, 0, 0), Does(C.Alloc(n)));
    sts := sts + [Does(C.Alloc(n))];
    assert Leads(e, f, Queued(x0, 0, 0), sts, Queued(x2, 0, 0));
    LeadsOn(e, f, Queued(x0, 0, 0), sts, Queued(x2, 0, 0), Does(C.SendBytes(n)));
    sts := sts + [Does(C.SendBytes(n))];
    assert Leads(e, f, Queued(x0, 0, 0), sts, Queued(Handed(r, n), 0, 0)) by {
      assert C.Committed(x2, n) == Zeros(n);
      assert [] + Zeros(n) == Zeros(n);
    }
  }

  lemma Load(f: Slot, r: nat, n: nat) returns (sts: seq<Step>)
    requires 0 < r <= n < HALF32
    ensures Leads(NO_ENV, f, Queued(Begin(r, n), 0, 0), sts, Queued(Loaded(r, n), r, 0))
  {
    hide C.Inv, C.Base, Leads, U32;
    var e, q0, x3 := NO_ENV, Queued(Begin(r, n), 0, 0), Handed(r, n);
    sts := LoadSent(f, r, n);
    assert C.Inv(e, x3) by { LeadsInv(e, f, q0, sts, Queued(x3, 0, 0)); }
    var x4 := x3.(conn := x3.conn.(txbBump := 0, bumpPending := false, bumpSeq := 1), atx := [AppBump(0, n, 0, false)]);
    LeadsOn(e, f, q0, sts, Queued(x3, 0, 0), Does(C.FlushBumps));
    sts := sts + [Does(C.FlushBumps)];
    assert Leads(e, f, q0, sts, Queued(x4, 0, 0)) by { assert [] + [AppBump(0, n, 0, false)] == x4.atx; }
    assert C.Inv(e, x4) by { LeadsInv(e, f, q0, sts, Queued(x4, 0, 0)); }
    LeadsOn(e, f, q0, sts, Queued(x4, 0, 0), Does(C.TakeBump));
    sts := sts + [Does(C.TakeBump)];
    U32Near(n);
    U32Near(r);
    assert x4.atx[1..] == [];
  }

  lemma LeadsInv(e: Env, f: Slot, q: Queued, sts: seq<Step>, q': Queued)
    requires Leads(e, f, q, sts, q')
    ensures C.Inv(e, q.world) && C.Inv(e, q'.world)
  {
  }

  /** The fast path sends what the window allows, up to one segment. */
  ghost function Fired(r: nat, n: nat): World
    requires 0 < r && 0 < n
  {
    var x, d := Loaded(r, n), Min(Min(n, r), TCP_MSS);
    x.(flow := x.flow.(tx := x.flow.tx.(avail := n - d, sent := d, nextSeq := U32(d), nextPos := if d == n then 0 else d)),
       w := x.w.(nxt := d))
  }

  lemma SendFired(f: Slot, r: nat, n: nat, q0: Queued, sts: seq<Step>, avail: nat)
    requires 0 < r <= n < HALF32 && Leads(NO_ENV, f, q0, sts, Queued(Loaded(r, n), avail, 1))
    ensures Leads(NO_ENV, f, q0, sts + [Does(C.SendSegment)], Queued(Fired(r, n), avail, 0))
  {
    hide C.Inv, C.Base, Leads, U32, Read;
    LeadsInv(NO_ENV, f, q0, sts, Queued(Loaded(r, n), avail, 1));
    LeadsOn(NO_ENV, f, q0, sts, Queued(Loaded(r, n), avail, 1), Does(C.SendSegment));
    U32Near(0);
  }

  /** An acknowledgement of the first byte, which opens the window by one. */
  const ACK: Segment := Segment(0, 1, 1, true, false, false, false, [])

  lemma AckTaken(tx: Tx)
    requires TxValid(tx) && tx.len == 2 && tx.sent == 1 && tx.avail == 1 && tx.nextSeq == 1
    ensures ProcessAck(tx, ACK) == AckResult(tx.(sent := 0, dupAcks := 0), 1, false)
  {
  }

  lemma AckInOrder(rx: Rx)
    requires RxValid(rx) && rx.nextSeq == 0 && rx.oooLen == 0 && !rx.fin
    ensures !InHole(rx, ACK) && Receive(rx, ACK).inOrder
  {
    hide U32;
    U32Near(0);
    U32Near(rx.avail);
  }

  lemma AckArrives(x: World)
    requires RxValid(x.flow.rx) && x.flow.rx.nextSeq == 0 && x.flow.rx.oooLen == 0 && !x.flow.rx.fin
    requires x.a.n == 0 && x.a.avail == 1 && !x.a.fin
    ensures C.Enabled(NO_ENV, x, C.Arrive(ACK, 0))
  {
    hide TrimHole, Receive, RxValid, U32;
    AckInOrder(x.flow.rx);
    assert U32(0) == 0 by { U32Near(0); }
    assert [][0..0] == ACK.payload;
  }

  lemma AckOpens(g: Flow)
    requires FlowValid(g) && !g.slow
    requires g.rx.nextSeq == 0 && g.rx.oooLen == 0 && !g.rx.fin
    requires g.tx.len == 2 && g.tx.sent == 1 && g.tx.avail == 1 && g.tx.nextSeq == 1
    ensures Packet(g, ACK).flow.tx == g.tx.(sent := 0, dupAcks := 0, remoteAvail := 1) && !Packet(g, ACK).toKernel
  {
    hide ProcessAck, Receive, U32, TrimHole;
    AckTaken(g.tx);
    AckInOrder(g.rx);
  }

  /** One of two bytes was sent and is acknowledged: the flow could send the second, and asks another queue. */
  lemma AckStrands(f: Slot, q0: Queued, sts: seq<Step>) returns (q: Queued)
    requires f.id >= W16 && Leads(NO_ENV, f, q0, sts, Queued(Fired(1, 2), 0, 0))
    ensures Leads(NO_ENV, f, q0, sts + [Does(C.Arrive(ACK, 0))], q)
    ensures q.fired == 0 && q.avail == 0 && Sendable(q.world.flow.tx) == 1
  {
    hide *;
    var x := Fired(1, 2);
    LeadsInv(NO_ENV, f, q0, sts, Queued(x, 0, 0));
    AckReady(x);
    EnabledDoes(f, Queued(x, 0, 0));
    LeadsOn(NO_ENV, f, q0, sts, Queued(x, 0, 0), Does(C.Arrive(ACK, 0)));
    q := Next(NO_ENV, f, Queued(x, 0, 0), Does(C.Arrive(ACK, 0)));
    AckOutcome(f, x);
  }

  predicate OneOfTwoSent(x: World) {
    && !x.flow.slow && x.flow.rx.nextSeq == 0 && x.flow.rx.oooLen == 0 && !x.flow.rx.fin
    && x.flow.tx.len == 2 && x.flow.tx.sent == 1 && x.flow.tx.avail == 1 && x.flow.tx.nextSeq == 1
    && x.a.n == 0 && x.a.avail == 1 && !x.a.fin
  }

  lemma AckReady(x: World)
    requires x == Fired(1, 2) && C.Inv(NO_ENV, x)
    ensures OneOfTwoSent(x) && C.Enabled(NO_ENV, x, C.Arrive(ACK, 0))
  {
    hide C.Inv, C.Base, C.Enabled, U32, RxValid;
    assert U32(0) == 0 && U32(1) == 1 by { U32Near(0); U32Near(1); }
    FlowOk(NO_ENV, x);
    AckArrives(x);
  }

  lemma EnabledDoes(f: Slot, q: Queued)
    requires C.Enabled(NO_ENV, q.world, C.Arrive(ACK, 0))
    ensures Enabled(NO_ENV, f, q, Does(C.Arrive(ACK, 0)))
  {
  }

  lemma FlowOk(e: Env, x: World)
    requires C.Inv(e, x)
    ensures FlowValid(x.flow)
  {
  }

  lemma AckOutcome(f: Slot, x: World)
    requires f.id >= W16 && C.Inv(NO_ENV, x) && OneOfTwoSent(x) && Enabled(NO_ENV, f, Queued(x, 0, 0), Does(C.Arrive(ACK, 0)))
    ensures var q := Next(NO_ENV, f, Queued(x, 0, 0), Does(C.Arrive(ACK, 0)));
      q.fired == 0 && q.avail == 0 && Sendable(q.world.flow.tx) == 1
  {
    hide C.Inv, C.Base, Packet, U32, RxValid, TxValid, ProcessAck, IdealReceive;
    FlowOk(NO_ENV, x);
    AckOpens(x.flow);
    assert PacketQueue(f.id) < W16;
  }

  /** A segment and one more byte wait, but another flow has set the queue to one byte: it fires once. */
  lemma OtherStrands(f: Slot, q0: Queued, sts: seq<Step>, n: nat) returns (more: seq<Step>, q: Queued)
    requires n == TCP_MSS + 1 && f.id < W16 && f.id + W16 < f.flows
    requires Leads(NO_ENV, f, q0, sts, Queued(Loaded(n, n), n, 0))
    ensures Leads(NO_ENV, f, q0, sts + more, q)
    ensures q.fired == 0 && q.avail == 0 && Sendable(q.world.flow.tx) == 1
  {
    hide C.Inv, C.Base, Leads, U32;
    var x := Loaded(n, n);
    LeadsInv(NO_ENV, f, q0, sts, Queued(x, n, 0));
    var other := Other(f.id + W16, 1);
    LeadsOn(NO_ENV, f, q0, sts, Queued(x, n, 0), other);
    LeadsOn(NO_ENV, f, q0, sts + [other], Queued(x, 1, 0), Fire);
    SendFired(f, n, n, q0, sts + [other] + [Fire], 0);
    more, q := [other, Fire, Does(C.SendSegment)], Queued(Fired(n, n), 0, 0);
    assert sts + [other] + [Fire] + [Does(C.SendSegment)] == sts + more;
  }

  /** The condition of NothingStranded is exact: any other flow has a run from connection setup to a batch
      boundary at which it could send a byte and its queue is empty. */
  lemma StrandsUnlessExclusive(f: Slot) returns (r: nat, n: nat, sts: seq<Step>, q: Queued)
    requires f.id < f.flows && !Exclusive(f)
    ensures 0 < r <= n && Covered(NO_ENV, Queued(Begin(r, n), 0, 0))
    ensures Leads(NO_ENV, f, Queued(Begin(r, n), 0, 0), sts, q)
    ensures q.fired == 0 && q.avail == 0 && Sendable(q.world.flow.tx) == 1
  {
    hide C.Inv, C.Base, Leads, U32;
    if f.id >= W16 {
      r, n := 1, 2;
    } else {
      r, n := TCP_MSS + 1, TCP_MSS + 1;
    }
    var q0 := Queued(Begin(r, n), 0, 0);
    InitialInv(NO_ENV, Zeros(r), Zeros(n), Leftover(0, 0, 0));
    sts := Load(f, r, n);
    if f.id >= W16 {
      LeadsInv(NO_ENV, f, q0, sts, Queued(Loaded(r, n), r, 0));
      LeadsOn(NO_ENV, f, q0, sts, Queued(Loaded(r, n), r, 0), Fire);
      SendFired(f, r, n, q0, sts + [Fire], 0);
      q := AckStrands(f, q0, sts + [Fire] + [Does(C.SendSegment)]);
      sts := sts + [Fire] + [Does(C.SendSegment)] + [Does(C.Arrive(ACK, 0))];
    } else {
      var more;
      more, q := OtherStrands(f, q0, sts, n);
      sts := sts + more;
    }
  }
}
