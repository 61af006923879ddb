/** A poll of the queue manager that never ends, reached from empty queues: two VMs with a paced flow each; they are
    polled once; then the flow of the first VM is told that it has nothing to send, and another of its flows that it
    has one byte. */
module VmWedge {
  import opened Arith
  import opened Timestamps
  import opened IndexList
  import opened FlowQueues
  import F = FlowQman
  import opened VmQman

  /** 2000 bytes, chunks of 1400, 1000 kbit/s. */
  const PACED := F.Change(1000, 2000, 1400, true, true, true, false)
  const NOTHING := F.Change(0, 0, 0, false, false, true, false)
  const ONE_BYTE := F.Change(0, 1, 1400, false, true, true, false)
  const BUDGETS: seq<int> := [1, 1]

  /** Flow 1 of two is paced, waits, and has `bytes` bytes. */
  predicate Waiting(q: Queues, g: Shadow, bytes: nat) {
    && q.rate == [0, 1000] && q.maxChunk == [0, 1400] && q.avail == [0, bytes]
    && g.order == [1] && g.nolimit == []
  }

  lemma SumTwo(a: nat, b: nat)
    ensures Sum([a, b]) == a + b
  {
    assert [a, b][1..] == [b] && [b][1..] == [];
    assert Sum([b]) == b;
  }

  lemma Paces(q: Queues, g: Shadow)
    requires F.Adjusted(F.EmptyQueues(2, 0), F.EmptyShadow(2, 0), 1, PACED, q, g)
    ensures Waiting(q, g, 2000) && F.Starting(q, g, 2, 0) && F.Punctual(q, g, 0)
  {
    assert Stamp(0, MID) == 0 by { F.StampSmall(0); }
    assert Delay(1400, 1000) == 11200000;
    hide Stamp, Delay, Sum;
    var none := seq(2, _ => 0);
    assert none[1 := 1000] == [0, 1000] && none[1 := 1400] == [0, 1400] && none[1 := 2000] == [0, 2000];
  }

  lemma Pauses(q: Queues, g: Shadow, q': Queues, g': Shadow)
    requires Waiting(q, g, 2000) && F.Spent(q, g, q', g')
    ensures Waiting(q', g', 600)
  {
    hide Delay, Sum;
    assert [0, 2000][1 := 600] == [0, 600];
  }

  lemma Stops(q: Queues, g: Shadow, q': Queues, g': Shadow)
    requires Waiting(q, g, 600) && F.Blocked(q, g, 2, 0) && Core(q, g, 2) && Core(q', g', 2)
    requires F.Adjusted(q, g, 1, NOTHING, q', g') && F.Punctual(q, g, 0)
    ensures Waiting(q', g', 0) && F.Blocked(q', g', 2, 0) && F.Punctual(q', g', 0)
  {
    hide Stamp, Delay, Linked, Timed, PaceInv, Nolimit, U32;
    assert [0, 600][1 := 0] == [0, 0] && [0, 1000][1 := 1000] == [0, 1000] && [0, 1400][1 := 1400] == [0, 1400];
    F.CoreFacts(q, g, 2);
    F.CoreFacts(q', g', 2);
  }

  lemma Drains(q: Queues, g: Shadow, q': Queues, g': Shadow)
    requires Waiting(q, g, 0) && F.Blocked(q, g, 2, 0) && Core(q, g, 2) && Core(q', g', 2)
    requires F.Adjusted(q, g, 0, ONE_BYTE, q', g') && F.Punctual(q, g, 0)
    ensures F.Draining(q', g', 2, 0) && F.Punctual(q', g', 0) && q'.avail == [1, 0] && Sum(q'.avail) == 1 && q'.inSkip[1]
  {
    hide Stamp, Delay, Sum, Linked, Timed, PaceInv, Nolimit, U32;
    assert [0, 0][0 := 1] == [1, 0];
    SumTwo(1, 0);
    U32Near(0);
    F.CoreFacts(q, g, 2);
    F.CoreFacts(q', g', 2);
    Unlisted(q, g);
    Idles(q', g');
  }

  lemma Idles(q: Queues, g: Shadow)
    requires Core(q, g, 2) && g.order == [1]
    ensures q.inSkip[1]
  {
    hide Stamp, Chain, PaceInv, Timed, Nolimit;
    assert 1 in g.order;
  }

  lemma Unlisted(q: Queues, g: Shadow)
    requires Core(q, g, 2) && g.order == [1] && g.nolimit == []
    ensures !q.inSkip[0] && !q.inNolimit[0]
  {
    hide Stamp, Chain, PaceInv;
  }

  method EmptyVms() returns (vms: VmQman)
    ensures fresh(vms) && fresh(vms.flows) && vms.Valid() && vms.NoIdle() && vms.list == [] && |vms.flows| == 2
    ensures forall v :: 0 <= v < 2 ==>
      vms.flows[v].n == 2 && vms.flows[v].q == F.EmptyQueues(2, 0) && vms.flows[v].g == F.EmptyShadow(2, 0)
  {
    hide Inv, F.EmptyQueues, F.EmptyShadow, Busy, Sum;
    var a := new F.FlowQman(2, 0);
    var b := new F.FlowQman(2, 0);
    vms := new VmQman([a, b]);
  }

  /** Both VMs wait, each with its one paced flow. */
  ghost predicate BothWait(vms: VmQman, bytes: nat)
    reads vms, vms.flows
  {
    && vms.Valid() && vms.NoIdle() && |vms.flows| == 2 && vms.list == [0, 1] && vms.avail == [bytes, bytes]
    && (forall v :: 0 <= v < 2 ==> vms.flows[v].n == 2 && Waiting(vms.flows[v].q, vms.flows[v].g, bytes))
    && vms.Timely([0, 1], 0)
  }

  lemma PacedOk()
    ensures forall rate, chunk :: F.ChangeOk(rate, chunk, PACED)
  {
    assert Delay(1400, 1000) == 11200000;
  }

  lemma ChangesOk(q: Queues, g: Shadow, bytes: nat)
    requires Waiting(q, g, bytes)
    ensures F.ChangeOk(q.rate[1], q.maxChunk[1], NOTHING) && F.ChangeOk(q.rate[0], q.maxChunk[0], ONE_BYTE)
  {
    assert Delay(1400, 1000) == 11200000;
  }

  lemma CountsAre(vms: VmQman, bytes: nat)
    requires vms.Valid() && |vms.flows| == 2 && bytes < W32
    requires forall v :: 0 <= v < 2 ==> Waiting(vms.flows[v].q, vms.flows[v].g, bytes)
    ensures vms.avail == [bytes, bytes] && forall v :: 0 <= v < 2 ==> vms.Pending(v) == bytes
  {
    hide Inv, Sum, U32;
    SumTwo(0, bytes);
    U32Near(bytes);
  }

  /** Give the paced flow of VM v its 2000 bytes. */
  method AddPaced(vms: VmQman, v: nat)
    requires vms.Valid() && vms.NoIdle() && |vms.flows| == 2 && v < 2 && v !in vms.list && vms.flows[v].n == 2
    requires vms.flows[v].q == F.EmptyQueues(2, 0) && vms.flows[v].g == F.EmptyShadow(2, 0)
    modifies vms, vms.flows
    ensures vms.Valid() && vms.NoIdle() && vms.list == old(vms.list) + [v] && vms.IsStarting(v, 0)
    ensures Waiting(vms.flows[v].q, vms.flows[v].g, 2000) && F.Punctual(vms.flows[v].q, vms.flows[v].g, 0)
    ensures forall u :: 0 <= u < 2 && u != v ==>
      vms.flows[u].q == old(vms.flows[u].q) && vms.flows[u].g == old(vms.flows[u].g)
  {
    hide Core, F.EmptyQueues, F.EmptyShadow, F.ChangeOk, F.Starting, F.Punctual, Busy, Sum, Stamp, U32, Chain, F.Adjusted;
    F.CoreFacts(vms.flows[v].q, vms.flows[v].g, 2);
    PacedOk();
    var ok := vms.Set(v, 1, PACED);
    Paces(vms.flows[v].q, vms.flows[v].g);
    SumTwo(0, 2000);
    U32Near(2000);
  }

  method PacedVms() returns (vms: VmQman)
    ensures fresh(vms) && fresh(vms.flows) && BothWait(vms, 2000) && vms.IsStarting(0, 0) && vms.IsStarting(1, 0)
  {
    hide Inv, F.EmptyQueues, F.EmptyShadow, F.Starting, F.Punctual, Busy, Sum, Stamp, U32, Chain, Waiting, VmQman.Valid;
    vms := EmptyVms();
    AddPaced(vms, 0);
    AddPaced(vms, 1);
    CountsAre(vms, 2000);
  }

  /** The first VM of the list takes its turn in a poll for three events: it sends a chunk and waits again, at the
      end of the list. */
  method TakeTurn(vms: VmQman, v: nat, w: nat, rvq: int, batch: seq<VmShot>, ghost total: seq<nat>)
    returns (rvq': int, batch': seq<VmShot>)
    requires vms.Round(3, BUDGETS, batch, [], total, 0) && vms.NoIdle() && |vms.flows| == 2 && total == [2000, 2000]
    requires vms.list == [v, w] && v < 2 && w < 2 && |batch| < 2
    requires vms.IsStarting(v, 0) && vms.avail[v] > 0 && Waiting(vms.flows[v].q, vms.flows[v].g, 2000)
    modifies vms, vms.flows
    ensures vms.Round(3, BUDGETS, batch', [], total, 0) && vms.NoIdle() && vms.list == [w, v] && |batch'| == |batch| + 1
    ensures rvq' == if rvq == NONE then v else rvq
    ensures vms.IsBlocked(v, 0) && Waiting(vms.flows[v].q, vms.flows[v].g, 600)
    ensures w != v ==> w < |old(vms.avail)| && vms.avail[w] == old(vms.avail)[w]
    ensures w != v ==> vms.flows[w].q == old(vms.flows[w].q) && vms.flows[w].g == old(vms.flows[w].g)
  {
    hide Inv, F.Starting, F.Spent, F.Blocked, F.Punctual, Busy, Sum, Stamp, U32, Chain, VmQman.Round, Waiting;
    assert Stamp(0, MID) == 0 by { F.StampSmall(0); }
    ghost var q, g := vms.flows[v].q, vms.flows[v].g;
    var oob;
    ghost var u;
    vms.HeadIs(3, BUDGETS, batch, [], total, 0);
    u, rvq', batch', oob := vms.VisitFirst(3, BUDGETS, 0, rvq, batch, [], total, 0);
    vms.HeadIs(3, BUDGETS, batch', oob, total, 0);
    Pauses(q, g, vms.flows[v].q, vms.flows[v].g);
  }

  /** A poll of both; with the first VM back at the head of the list, it ends. */
  method PollOnce(vms: VmQman)
    requires BothWait(vms, 2000) && vms.IsStarting(0, 0) && vms.IsStarting(1, 0)
    modifies vms, vms.flows
    ensures BothWait(vms, 600) && vms.IsBlocked(0, 0) && vms.IsBlocked(1, 0)
  {
    hide Inv, F.Starting, F.Blocked, F.Punctual, Busy, Sum, Stamp, U32, Chain, VmQman.Round, Waiting, VmQman.NoIdle;
    ghost var total := [2000, 2000];
    CountsAre(vms, 2000);
    vms.Begin(3, BUDGETS, total, 0);
    var rvq, batch := TakeTurn(vms, 0, 1, NONE, [], total);
    rvq, batch := TakeTurn(vms, 1, 0, rvq, batch, total);
    vms.HeadIs(3, BUDGETS, batch, [], total, 0);
    assert vms.head == rvq;
    vms.Finish(3, BUDGETS, batch, total, 0, old(vms.avail));
    CountsAre(vms, 600);
  }

  /** VM 0 waits with nothing to send, VM 1 with 600 bytes. */
  ghost predicate OneIdle(vms: VmQman)
    reads vms, vms.flows
  {
    && vms.Valid() && |vms.flows| == 2 && vms.list == [0, 1] && vms.flows[0].n == vms.flows[1].n == 2
    && Waiting(vms.flows[0].q, vms.flows[0].g, 0) && Waiting(vms.flows[1].q, vms.flows[1].g, 600)
    && vms.IsBlocked(0, 0) && vms.IsBlocked(1, 0) && vms.Timely([0, 1], 0)
  }

  /** Tell flow 1 of VM 0 that it has nothing to send. */
  method Stop(vms: VmQman)
    requires BothWait(vms, 600) && vms.IsBlocked(0, 0) && vms.IsBlocked(1, 0)
    modifies vms, vms.flows
    ensures OneIdle(vms)
  {
    hide Core, F.Blocked, Busy, Sum, Stamp, Delay, U32, Chain, F.Adjusted, Waiting;
    ghost var q, g := vms.flows[0].q, vms.flows[0].g;
    ChangesOk(q, g, 600);
    var ok := vms.Set(0, 1, NOTHING);
    Stops(q, g, vms.flows[0].q, vms.flows[0].g);
  }

  /** Tell flow 0 of VM 0 that it has one byte. */
  method AddByte(vms: VmQman)
    requires OneIdle(vms)
    modifies vms, vms.flows
    ensures vms.Valid() && !vms.NoIdle() && |vms.flows| == 2 && vms.Timely(vms.list, 0) && vms.Wedging(3, BUDGETS, [], 0)
  {
    hide Core, F.Blocked, F.Draining, F.Punctual, Sum, Stamp, Delay, U32, Chain, F.Adjusted, Waiting;
    ghost var q, g := vms.flows[0].q, vms.flows[0].g;
    ChangesOk(q, g, 0);
    F.CoreFacts(q, g, 2);
    var ok := vms.Set(0, 0, ONE_BYTE);
    Drains(q, g, vms.flows[0].q, vms.flows[0].g);
    HasBytes(vms.flows[1].q, vms.flows[1].g);
    U32Near(1);
    U32Near(600);
  }

  lemma HasBytes(q: Queues, g: Shadow)
    requires Waiting(q, g, 600)
    ensures Sum(q.avail) == 600
  {
    SumTwo(0, 600);
  }

  /** From empty queues to a poll for three events that goes on forever: after any number k of further turns its
      loop has not ended, with one event and no second one to come. */
  method WedgeExample(k: nat) returns (vms: VmQman, batch: seq<VmShot>, rvq: int)
    ensures |batch| == 1 && vms.head != NONE && vms.head != rvq && |vms.flows| == 2 && vms.Wedged(3, BUDGETS, batch, rvq, 0)
  {
    vms := PacedVms();
    PollOnce(vms);
    Stop(vms);
    AddByte(vms);
    batch, rvq := PollForever(vms, k);
  }

  method PollForever(vms: VmQman, k: nat) returns (batch: seq<VmShot>, rvq: int)
    requires vms.Valid() && |vms.flows| == 2 && vms.Timely(vms.list, 0) && vms.Wedging(3, BUDGETS, [], 0)
    modifies vms, vms.flows
    ensures |batch| == 1 && vms.head != NONE && vms.head != rvq && vms.Wedged(3, BUDGETS, batch, rvq, 0)
  {
    hide VmQman.Round, VmQman.Valid, VmQman.Timely, VmQman.Pending, Stamp, F.Draining, F.Blocked;
    assert Stamp(0, MID) == 0 by { F.StampSmall(0); }
    ghost var total := [vms.Pending(0), vms.Pending(1)];
    vms.Begin(3, BUDGETS, total, 0);
    var oob;
    rvq, batch, oob := vms.Turn(3, BUDGETS, 0, NONE, [], [], total, 0);
    oob := vms.Spin(k, 3, BUDGETS, 0, rvq, batch, oob, total, 0);
  }
}
