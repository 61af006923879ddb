/** The queue manager's round robin over virtual machines (tas/fast/qman.c, vm_* functions). */
module VmQman {
  import opened Arith
  import opened Timestamps
  import opened IndexList
  import opened FlowQueues
  import F = FlowQman

  /** One event of a batch: VM, flow and bytes. */
  datatype VmShot = VmShot(vm: nat, idx: nat, bytes: nat)

  /** Bytes a batch reports for VM v. */
  function BytesOf(batch: seq<VmShot>, v: nat): nat {
    if |batch| == 0 then 0
    else (if batch[0].vm == v then batch[0].bytes else 0) + BytesOf(batch[1..], v)
  }

  lemma {:induction false} BytesOfConcat(a: seq<VmShot>, b: seq<VmShot>, v: nat)
    ensures BytesOf(a + b, v) == BytesOf(a, v) + BytesOf(b, v)
  {
    if |a| == 0 {
      assert a + b == b;
    } else {
      BytesOfConcat(a[1..], b, v);
      assert (a + b)[1..] == a[1..] + b;
    }
  }

  function Tag(shots: seq<F.Shot>, v: nat): (r: seq<VmShot>)
    ensures |r| == |shots|
    ensures forall k :: 0 <= k < |r| ==> r[k] == VmShot(v, shots[k].idx, shots[k].bytes)
  {
    seq(|shots|, k requires 0 <= k < |shots| => VmShot(v, shots[k].idx, shots[k].bytes))
  }

  lemma {:induction false} TagBytes(shots: seq<F.Shot>, v: nat, u: nat)
    ensures BytesOf(Tag(shots, v), u) == if u == v then F.Bytes(shots) else 0
  {
    if |shots| > 0 {
      TagBytes(shots[1..], v, u);
      assert Tag(shots, v)[1..] == Tag(shots[1..], v);
    }
  }

  /** What vm_qman_poll makes of a VM's 32-bit byte count after `bytes` were served. */
  function Debit(avail: nat, bytes: nat): nat {
    if avail > 0 then U32(avail - bytes) else avail
  }

  /** Keeping the count equal to the true total modulo 2^32 works exactly when the stored count is
      not zero or nothing, modulo 2^32, was served; a total of exactly 2^32 bytes breaks it. */
  lemma DebitExactIff(total: nat, bytes: nat)
    requires bytes <= total
    ensures Debit(U32(total), bytes) == U32(total - bytes) <==> U32(total) != 0 || U32(bytes) == 0
  {
    hide U32;
    U32Absorb(total, 0 - bytes);
    if U32(total) == 0 {
      ZeroLess(total, bytes);
    }
  }

  lemma ZeroLess(total: nat, bytes: nat)
    requires U32(total) == 0
    ensures U32(total - bytes) == 0 <==> U32(bytes) == 0
  {
    hide U32;
    U32Absorb(total, 0 - bytes);
    U32Absorb(0 - bytes, bytes);
    U32Absorb(bytes, 0 - bytes);
    U32Near(0);
  }

  /** A VM's count in the course of a poll that began with `total` bytes: zero stays zero, everything else
      follows the bytes still pending. */
  function Count(total: nat, pending: nat): nat {
    if U32(total) == 0 then 0 else U32(pending)
  }

  lemma DebitCount(total: nat, pending: nat, bytes: nat)
    requires bytes <= pending && (Count(total, pending) > 0 || U32(total) == 0)
    ensures Debit(Count(total, pending), bytes) == Count(total, pending - bytes)
  {
    hide U32;
    U32Absorb(pending, 0 - bytes);
  }

  /** Exactly 2^32 bytes are queued, one is served: the count stays at zero instead of going to 2^32 - 1. */
  lemma DebitStuckAtZero()
    ensures Debit(U32(W32), 1) == 0 && U32(W32 - 1) == W32 - 1
  {
    hide U32;
    U32Near(W32);
    U32Near(W32 - 1);
  }

  /** Position of v in a list, or its length. */
  function IndexOf(list: seq<nat>, v: int): nat {
    if |list| == 0 || list[0] == v then 0 else 1 + IndexOf(list[1..], v)
  }

  lemma {:induction false} IndexOfAppend(list: seq<nat>, w: nat, v: int)
    requires v in list
    ensures IndexOf(list + [w], v) == IndexOf(list, v)
  {
    if list[0] != v {
      assert (list + [w])[1..] == list[1..] + [w];
      IndexOfAppend(list[1..], w, v);
    }
  }

  /** The queues of one VM at some time. */
  datatype View = View(q: Queues, g: Shadow)

  predicate Reached(w: View, w': View, now: int) {
    F.Reached(w.q, w.g, w'.q, w'.g, now)
  }

  predicate Carried(w: View, w': View, now: int) {
    F.Carried(w.q, w.g, w'.q, w'.g, now)
  }

  /** VM v took a turn and was polled if it has budget; there is room for more. */
  predicate Advanced(ws: seq<View>, ws': seq<View>, v: nat, polled: bool, room: bool, now: int) {
    && |ws| == |ws'| && v < |ws| && (forall u :: 0 <= u < |ws| && u != v ==> ws'[u] == ws[u])
    && (polled && room ==> Reached(ws[v], ws'[v], now)) && (!polled ==> ws'[v] == ws[v])
  }

  /** Since `ws`, the VMs in `done` were polled, and nothing but polls happened. */
  ghost predicate Progressed(ws: seq<View>, ws': seq<View>, done: set<nat>, now: int) {
    && |ws| == |ws'| && (forall u :: 0 <= u < |ws| ==> Carried(ws[u], ws'[u], now))
    && forall u <- done :: u < |ws| && Reached(ws[u], ws'[u], now)
  }

  /** All events of the batch are of VMs with budget. */
  predicate AllBudgeted(batch: seq<VmShot>, budgets: seq<int>) {
    forall k :: 0 <= k < |batch| ==> batch[k].vm < |budgets| && budgets[batch[k].vm] > 0
  }

  /** No event of the batch is of a VM with budget. */
  predicate NoneBudgeted(batch: seq<VmShot>, budgets: seq<int>) {
    forall k :: 0 <= k < |batch| ==> batch[k].vm < |budgets| && budgets[batch[k].vm] <= 0
  }

  function InBudget(list: seq<nat>, budgets: seq<int>): set<nat> {
    set v | v in list && v < |budgets| && budgets[v] > 0
  }

  lemma ProgressedStart(ws: seq<View>, now: int)
    ensures Progressed(ws, ws, {}, now)
  {
    hide F.Homed;
  }

  lemma ProgressedLess(ws: seq<View>, ws': seq<View>, done: set<nat>, less: set<nat>, now: int)
    requires Progressed(ws, ws', done, now) && less <= done
    ensures Progressed(ws, ws', less, now)
  {
    hide F.Reached, F.Carried;
  }

  /** Nothing happened to the VMs that are not listed. */
  predicate Others(ws: seq<View>, ws': seq<View>, vms: seq<nat>) {
    |ws| == |ws'| && forall v :: 0 <= v < |ws| && v !in vms ==> ws'[v] == ws[v]
  }

  lemma OthersStart(ws: seq<View>, vms: seq<nat>)
    ensures Others(ws, ws, vms)
  {
  }

  lemma OthersStep(ws: seq<View>, ws1: seq<View>, ws2: seq<View>, vms: seq<nat>, v: nat, polled: bool, room: bool, now: int)
    requires Others(ws, ws1, vms) && Advanced(ws1, ws2, v, polled, room, now) && v in vms
    ensures Others(ws, ws2, vms)
  {
    hide F.Reached;
  }

  /** A second pass that polls others. */
  lemma ProgressedThen(ws: seq<View>, ws1: seq<View>, ws2: seq<View>, done: set<nat>, more: set<nat>, now: int)
    requires Progressed(ws, ws1, done, now) && |ws2| == |ws| && (forall v <- more :: v !in done)
    requires forall v :: 0 <= v < |ws| && v !in more ==> ws2[v] == ws1[v]
    ensures forall v <- done :: v < |ws| && Reached(ws[v], ws2[v], now)
    ensures Progressed(ws1, ws2, more, now) ==> Progressed(ws, ws2, done + more, now)
  {
    hide F.Reached, F.Carried;
    if Progressed(ws1, ws2, more, now) {
      forall v | 0 <= v < |ws|
        ensures Carried(ws[v], ws2[v], now) && (v in more ==> Reached(ws[v], ws2[v], now))
      {
        if v in more {
          F.ReachedCarries(ws[v].q, ws[v].g, ws1[v].q, ws1[v].g, ws2[v].q, ws2[v].g, now);
        }
      }
    }
  }

  /** After both passes: every listed VM with budget was polled, and every other one with a count if the first pass served
      none. */
  lemma BothPasses(ws: seq<View>, ws1: seq<View>, ws2: seq<View>, list: seq<nat>, budgets: seq<int>, avail: seq<nat>,
                   oob: seq<nat>, none: bool, now: int)
    requires |budgets| == |avail| == |ws| == |ws2| && (forall v <- list :: v < |ws|)
    requires Progressed(ws, ws1, InBudget(list, budgets), now)
    requires forall k :: 0 <= k < |oob| ==> oob[k] < |budgets| && budgets[oob[k]] <= 0
    requires Others(ws1, ws2, oob)
    requires none ==> Progressed(ws1, ws2, (set v | v in oob), now)
    requires forall v <- list :: budgets[v] <= 0 && avail[v] > 0 ==> v in oob
    ensures forall v <- list :: budgets[v] > 0 ==> Reached(ws[v], ws2[v], now)
    ensures none ==> forall v <- list :: avail[v] > 0 ==> Reached(ws[v], ws2[v], now)
  {
    hide Progressed, Reached;
    var more := set v | v in oob;
    ProgressedAll(ws, ws1, InBudget(list, budgets), now);
    ProgressedThen(ws, ws1, ws2, InBudget(list, budgets), more, now);
    if none {
      ProgressedAll(ws, ws2, InBudget(list, budgets) + more, now);
    }
  }

  lemma ProgressedAll(ws: seq<View>, ws': seq<View>, done: set<nat>, now: int)
    requires Progressed(ws, ws', done, now)
    ensures |ws| == |ws'| && forall u <- done :: u < |ws| && Reached(ws[u], ws'[u], now)
  {
  }

  /** The VMs of the list not yet visited, after its first one has had its turn. */
  lemma TodoNext(todo: seq<nat>, list: seq<nat>, list': seq<nat>, v: nat, next: seq<nat>)
    requires todo <= list && |list| > 0 && v == list[0] && v !in list[1..] && list[1..] <= list'
    requires next == if |todo| > 0 then todo[1..] else todo
    ensures next <= list' && v !in next && (forall u <- next :: u in todo) && forall u <- todo :: u in next || u == v
  {
    if |todo| > 0 {
      assert todo == [v] + next && next <= list[1..];
    }
  }

  lemma ProgressedStep(ws: seq<View>, ws1: seq<View>, ws2: seq<View>, done: set<nat>, v: nat, polled: bool, now: int)
    requires Progressed(ws, ws1, done, now) && Advanced(ws1, ws2, v, polled, true, now)
    ensures Progressed(ws, ws2, if polled then done + {v} else done, now)
  {
    hide F.Reached, F.Carried;
    if polled {
      F.ReachedCarries(ws[v].q, ws[v].g, ws1[v].q, ws1[v].g, ws2[v].q, ws2[v].g, now);
    }
  }

  class VmQman {
    const flows: seq<F.FlowQman>
    var next: seq<int>
    var head: int
    var tail: int
    var avail: seq<nat>
    var linked: seq<bool>
    ghost var list: seq<nat>

    /** Bytes queued for VM v over all its flows. */
    ghost function Pending(v: nat): nat
      requires v < |flows|
      reads flows[v]
    {
      Sum(flows[v].q.avail)
    }

    /** One count and one set of flows per VM. */
    ghost predicate Apart()
      reads this`avail, flows
    {
      && |avail| == |flows|
      && (forall u, v :: 0 <= u < v < |flows| ==> flows[u] != flows[v])
      && (forall v :: 0 <= v < |flows| ==> flows[v].Valid())
    }

    ghost function Views(): (ws: seq<View>)
      reads flows
      ensures |ws| == |flows| && forall v :: 0 <= v < |ws| ==> ws[v] == View(flows[v].q, flows[v].g)
    {
      seq(|flows|, v requires 0 <= v < |flows| reads flows => View(flows[v].q, flows[v].g))
    }

    /** Each VM's count equals the sum over its flows, modulo 2^32. */
    ghost predicate Books()
      reads this`avail, flows
    {
      Apart() && forall v :: 0 <= v < |flows| ==> avail[v] == U32(Pending(v))
    }

    ghost predicate ListOk()
      reads this`next, this`head, this`tail, this`linked, this`list
    {
      && |next| == |linked| == |flows|
      && Distinct(list) && Chain(next, head, list) && tail == Last(list)
      && (forall v :: 0 <= v < |flows| ==> (linked[v] <==> v in list))
    }

    /** Every VM whose count is not zero is linked, and exactly once. */
    ghost predicate Valid()
      reads this, flows
    {
      Books() && ListOk() && forall v :: 0 <= v < |flows| ==> avail[v] > 0 ==> linked[v]
    }

    /** The VMs about to be polled are polled in time. */
    ghost predicate Timely(vms: seq<nat>, now: int)
      reads flows
    {
      forall v <- vms :: v < |flows| && F.Punctual(flows[v].q, flows[v].g, now)
    }

    /** No flow waits in a skip list without bytes to send. */
    ghost predicate NoIdle()
      reads flows
    {
      forall v :: 0 <= v < |flows| ==> Busy(flows[v].q, flows[v].n)
    }

    /** vm_queue_activate. */
    method Activate(v: nat)
      requires ListOk() && v < |flows| && !linked[v]
      modifies this`next, this`head, this`tail, this`linked, this`list
      ensures ListOk() && list == old(list) + [v] && linked == old(linked)[v := true]
    {
      ghost var next0 := next;
      linked := linked[v := true];
      next := next[v := NONE];
      if tail == NONE {
        head, tail := v, v;
      } else {
        next := next[tail := v];
        tail := v;
      }
      ChainAppend(next0, old(head), list, v, next, head);
      list := list + [v];
    }

    /** Take the first VM off the list. */
    method Pop() returns (v: nat)
      requires ListOk() && list != []
      modifies this`head, this`tail, this`linked, this`list
      ensures ListOk() && v < |flows| && v == old(list)[0] && list == old(list)[1..] && v !in list
      ensures linked == old(linked)[v := false] && old(linked)[v]
    {
      v := head;
      ChainPop(next, head, list);
      assert list == [list[0]] + list[1..];
      head := next[v];
      linked := linked[v := false];
      if next[v] == NONE {
        tail := NONE;
      }
      list := list[1..];
    }

    /** vmcont_init: no VM linked, nothing pending. */
    constructor (flows: seq<F.FlowQman>)
      requires forall u, v :: 0 <= u < v < |flows| ==> flows[u] != flows[v]
      requires forall v :: 0 <= v < |flows| ==> flows[v].Valid() && Sum(flows[v].q.avail) == 0
      ensures this.flows == flows && Valid() && list == []
    {
      hide U32, F.FlowQman.Valid;
      U32Near(0);
      this.flows := flows;
      next := seq(|flows|, _ => 0);
      head, tail := NONE, NONE;
      avail := seq(|flows|, _ => 0);
      linked := seq(|flows|, _ => false);
      list := [];
    }

    /** vm_set_impl: account for flow bytes changing from prev, modulo 2^32, and link the VM if it has
        something to send. */
    method VmSet(v: nat, prev: nat, c: F.Change)
      requires ListOk() && v < |flows| == |avail| && avail[v] < W32
      modifies this
      ensures ListOk() && avail == old(avail)[v := U32(old(avail)[v] - prev + NewTotal(prev, c))]
      ensures forall u :: 0 <= u < |flows| ==> old(linked)[u] ==> linked[u]
      ensures avail[v] > 0 ==> linked[v] || (avail == old(avail) && linked == old(linked))
      ensures list == old(list) || (v !in old(list) && list == old(list) + [v])
    {
      hide U32, Chain;
      var total := avail[v];
      U32Near(total);
      if c.setAvail {
        U32Absorb(total - prev, c.avail);
        avail := avail[v := U32(U32(total - prev) + c.avail)];
      } else if c.addAvail {
        avail := avail[v := U32(total + c.avail)];
      }
      if (c.setAvail || c.addAvail) && avail[v] > 0 && !linked[v] {
        Activate(v);
      }
    }

    /** vm_qman_set: change a flow's queue and keep the VM's count and list up to date. */
    method Set(v: nat, i: nat, c: F.Change) returns (ok: bool)
      requires Valid()
      requires v < |flows| ==> i < flows[v].n && F.ChangeOk(flows[v].q.rate[i], flows[v].q.maxChunk[i], c)
      modifies this, flows
      ensures ok <==> v < |flows|
      ensures Valid()
      ensures ok ==> i < |old(flows[v].q.avail)|
      ensures ok ==> flows[v].q.avail == old(flows[v].q.avail)[i := F.NewAvail(old(flows[v].q.avail)[i], c)]
      ensures ok ==> F.Adjusted(old(flows[v].q), old(flows[v].g), i, c, flows[v].q, flows[v].g)
      ensures list == old(list) || (ok && v !in old(list) && list == old(list) + [v])
      ensures ok ==> i < |old(flows[v].q.inSkip)|
      ensures ok && old(NoIdle()) ==> (NoIdle() <==> !(old(flows[v].q.inSkip)[i] && flows[v].q.avail[i] == 0))
      ensures forall u :: 0 <= u < |flows| && u != v ==> flows[u].q == old(flows[u].q) && flows[u].g == old(flows[u].g)
      ensures forall u :: 0 <= u < |flows| ==> flows[u].g.vt == old(flows[u].g.vt) && flows[u].g.rt == old(flows[u].g.rt)
    {
      hide Stamp, Core, NoneLost, Sum, Delay, F.NewRate, F.NewChunk, F.NewAvail, F.ChangeOk, F.Adjusted, F.Homed, ListOk,
           NewTotal, U32, Busy;
      if v >= |flows| {
        return false;
      }
      ok := true;
      F.CoreFacts(flows[v].q, flows[v].g, flows[v].n);
      var prev := flows[v].q.avail[i];
      SumUpdate(flows[v].q.avail, i, F.NewAvail(prev, c));
      CountFits(Pending(v), prev, c);
      VmSet(v, prev, c);
      flows[v].Set(i, c);
    }

    /** Poll the flows of VM v and take what they were served off the VM's count. */
    method PollVm(v: nat, num: nat, cur: nat, origNum: nat, ghost now: int) returns (shots: seq<F.Shot>, limited: bool)
      requires Apart() && v < |flows| && F.Punctual(flows[v].q, flows[v].g, now) && cur == Stamp(now, MID)
      modifies this`avail, flows[v]
      ensures Apart() && F.Punctual(flows[v].q, flows[v].g, now) && (old(NoIdle()) ==> NoIdle()) && |shots| <= num
      ensures old(Pending(v)) == Pending(v) + F.Bytes(shots)
      ensures avail == old(avail)[v := Debit(old(avail)[v], F.Bytes(shots))]
      ensures old(Books()) ==> (Books() <==> old(avail)[v] != 0 || U32(F.Bytes(shots)) == 0)
      ensures shots == [] && num > 0 && !limited ==> Pending(v) == 0
      ensures limited && NoIdle() ==> Pending(v) > 0
      ensures old(IsBlocked(v, now)) && num > 0 ==> shots == [] && limited && IsBlocked(v, now)
      ensures old(IsDraining(v, now)) && num > 1 ==> |shots| == 1 && limited && U32(Pending(v)) == 0
      ensures old(IsStarting(v, now)) && num > 1 ==> |shots| == 1 && limited && IsBlocked(v, now) && HasSpent(v)
      ensures |shots| < num ==> HasReached(v, now)
    {
      hide Stamp, Inv, Sum, F.Bytes, Busy, U32, F.Starting, F.Spent, F.Homed, F.Drained, F.Stray;
      if F.Homed(flows[v].q, flows[v].g) {
        F.HomedNotStray(flows[v].q, flows[v].g, flows[v].g.vt + F.Gap(flows[v].g, now));
      }
      shots, limited := flows[v].Poll(num, cur, origNum, now);
      F.LateIff(flows[v].q, flows[v].g, now);
      var bytes := ShotBytes(shots);
      DebitExactIff(Pending(v) + bytes, bytes);
      if avail[v] > 0 {
        var had: int := avail[v];
        avail := avail[v := U32(had - bytes)];
      }
    }

    ghost predicate IsBlocked(v: nat, now: int)
      requires v < |flows|
      reads flows[v]
    {
      F.Blocked(flows[v].q, flows[v].g, flows[v].n, now)
    }

    ghost predicate IsDraining(v: nat, now: int)
      requires v < |flows|
      reads flows[v]
    {
      F.Draining(flows[v].q, flows[v].g, flows[v].n, now)
    }

    ghost predicate IsStarting(v: nat, now: int)
      requires v < |flows|
      reads flows[v]
    {
      F.Starting(flows[v].q, flows[v].g, flows[v].n, now)
    }

    /** The one queue of VM v has sent a chunk. */
    twostate predicate HasSpent(v: nat)
      requires v < |flows|
      reads flows[v]
    {
      F.Spent(old(flows[v].q), old(flows[v].g), flows[v].q, flows[v].g)
    }

    /** VM v was polled at `now` with room for more. */
    twostate predicate HasReached(v: nat, now: int)
      requires v < |flows|
      reads flows[v]
    {
      F.Reached(old(flows[v].q), old(flows[v].g), flows[v].q, flows[v].g, now)
    }

    /** The running total flow_queue_fire keeps. */
    method ShotBytes(shots: seq<F.Shot>) returns (sum: nat)
      ensures sum == F.Bytes(shots)
    {
      sum := 0;
      var k := 0;
      F.BytesEmpty();
      while k < |shots|
        invariant 0 <= k <= |shots| && sum == F.Bytes(shots[..k])
      {
        sum := sum + shots[k].bytes;
        assert shots[..k + 1] == shots[..k] + [shots[k]];
        F.BytesAppend(shots[..k], shots[k]);
        k := k + 1;
      }
      assert shots[..k] == shots;
    }

    /** Every VM with pending bytes is linked or set aside. */
    ghost predicate Accounted(oob: seq<nat>)
      requires |avail| == |linked| == |flows|
      reads this`avail, this`linked
    {
      KeptTrack(avail, linked, oob)
    }

    /** What a batch reports for each VM is what its flows have lost since `total`. */
    ghost predicate Conserved(batch: seq<VmShot>, total: seq<nat>)
      reads flows
    {
      |total| == |flows| && forall v :: 0 <= v < |flows| ==> total[v] == Pending(v) + BytesOf(batch, v)
    }

    /** The counts of a poll that began with `total`. */
    ghost predicate Counts(total: seq<nat>)
      reads this`avail, flows
    {
      |total| == |flows| == |avail| && forall v :: 0 <= v < |flows| ==> avail[v] == Count(total[v], Pending(v))
    }

    /** State of vm_qman_poll between two VMs. */
    ghost predicate Round(num: nat, budgets: seq<int>, batch: seq<VmShot>, oob: seq<nat>, total: seq<nat>, now: int)
      reads this, flows
    {
      && Apart() && |avail| == |flows| && ListOk() && Timely(list, now) && Timely(oob, now) && |batch| <= num
      && Aside(oob, budgets) && Accounted(oob)
      && Conserved(batch, total) && Counts(total) && Charged(avail, total, list) && Charged(avail, total, oob)
    }

    /** Poll one VM and add its events to the batch. */
    method Extend(v: nat, num: nat, cur: nat, origNum: nat, batch: seq<VmShot>, ghost total: seq<nat>, ghost now: int)
      returns (batch': seq<VmShot>, limited: bool)
      requires Apart() && v < |flows| && F.Punctual(flows[v].q, flows[v].g, now) && cur == Stamp(now, MID) && |batch| < num
      requires Conserved(batch, total) && Counts(total) && Charged(avail, total, [v])
      modifies this`avail, flows[v]
      ensures Apart() && |avail| == |flows| && |batch'| <= num && batch <= batch' && Conserved(batch', total) && Counts(total)
      ensures F.Punctual(flows[v].q, flows[v].g, now) && (old(NoIdle()) ==> NoIdle())
      ensures forall k :: |batch| <= k < |batch'| ==> batch'[k].vm == v
      ensures forall u :: 0 <= u < |flows| && u != v ==> avail[u] == old(avail)[u]
      ensures forall u :: 0 <= u < |flows| && u != v ==> flows[u].q == old(flows[u].q) && flows[u].g == old(flows[u].g)
      ensures |batch'| == |batch| && !limited ==> avail[v] == 0
      ensures old(avail)[v] == 0 ==> avail[v] == 0
      ensures limited && NoIdle() && old(avail)[v] > 0 && total[v] < W32 ==> avail[v] > 0
      ensures old(IsBlocked(v, now)) ==> batch' == batch && limited && avail[v] == old(avail)[v] && IsBlocked(v, now)
      ensures old(IsDraining(v, now)) && |batch| + 1 < num ==> |batch'| == |batch| + 1 && limited && avail[v] == 0
      ensures old(IsStarting(v, now)) && |batch| + 1 < num ==>
        |batch'| == |batch| + 1 && limited && IsBlocked(v, now) && HasSpent(v)
      ensures |batch'| < num ==> HasReached(v, now)
    {
      hide Stamp, Inv, Sum, BytesOf, F.Bytes, Busy, U32, F.Starting, HasSpent, HasReached;
      var shots;
      assert v in [v];
      shots, limited := PollVm(v, num - |batch|, cur, origNum, now);
      batch' := batch + Tag(shots, v);
      BatchGrown(batch, shots, v, |flows|);
      DebitCount(total[v], old(Pending(v)), F.Bytes(shots));
      F.BytesEmpty();
      U32Near(0);
      if total[v] < W32 {
        U32Near(Pending(v));
        U32Near(total[v]);
      }
    }

    /** Serve a VM that is in no list; as in the source, the count from before decides whether it is linked in
        again. */
    method ServeVm(v: nat, num: nat, cur: nat, origNum: nat, batch: seq<VmShot>, ghost total: seq<nat>, ghost now: int)
      returns (batch': seq<VmShot>, limited: bool)
      requires Apart() && ListOk() && v < |flows| && !linked[v] && Timely([v], now)
      requires Conserved(batch, total) && Counts(total) && Charged(avail, total, [v]) && |batch| < num && cur == Stamp(now, MID)
      modifies this, flows[v]
      ensures Apart() && |avail| == |flows| && ListOk() && Conserved(batch', total) && batch <= batch' && |batch'| <= num
      ensures Counts(total)
      ensures Timely([v], now) && (old(NoIdle()) ==> NoIdle())
      ensures forall u :: 0 <= u < |flows| && u != v ==> avail[u] == old(avail)[u] && linked[u] == old(linked)[u]
      ensures forall u :: 0 <= u < |flows| && u != v ==> flows[u].q == old(flows[u].q) && flows[u].g == old(flows[u].g)
      ensures forall k :: |batch| <= k < |batch'| ==> batch'[k].vm == v
      ensures list == old(list) + (if linked[v] then [v] else []) && (avail[v] > 0 <==> linked[v])
      ensures old(avail)[v] == 0 ==> avail[v] == 0
      ensures |batch'| == |batch| && !limited ==> avail[v] == 0
      ensures limited && NoIdle() && old(avail)[v] > 0 && total[v] < W32 ==> avail[v] > 0
      ensures old(IsBlocked(v, now)) ==> batch' == batch && limited && avail[v] == old(avail)[v] && IsBlocked(v, now)
      ensures old(IsDraining(v, now)) && |batch| + 1 < num ==> |batch'| == |batch| + 1 && limited && avail[v] == 0
      ensures old(IsStarting(v, now)) && |batch| + 1 < num ==>
        |batch'| == |batch| + 1 && limited && IsBlocked(v, now) && HasSpent(v)
      ensures |batch'| < num ==> HasReached(v, now)
    {
      hide Stamp, Inv, Sum, BytesOf, Conserved, Counts, Chain, Busy, F.Punctual, F.Blocked, F.Draining, F.Starting, F.Spent,
           F.Reached;
      HasTotal(total);
      var had := avail[v];
      batch', limited := Extend(v, num, cur, origNum, batch, total, now);
      if had > 0 && avail[v] > 0 {
        Activate(v);
      }
    }

    lemma HasTotal(total: seq<nat>)
      requires Counts(total)
      ensures |total| == |flows| == |avail| && forall v :: 0 <= v < |flows| ==> avail[v] > 0 ==> U32(total[v]) != 0
    {
    }

    /** A VM of the first pass, just taken off the list: served if it has budget, and remembered as the one to
        stop at if a rate limit held it back while, before, it had something to send. */
    method Visit(v: nat, num: nat, budgets: seq<int>, cur: nat, rvq: int, batch: seq<VmShot>, oob: seq<nat>,
                 ghost total: seq<nat>, ghost now: int)
      returns (rvq': int, batch': seq<VmShot>, oob': seq<nat>)
      requires Apart() && ListOk() && v < |flows| && !linked[v] && Timely([v], now)
      requires Conserved(batch, total) && Counts(total) && Charged(avail, total, [v])
      requires |batch| < num && cur == Stamp(now, MID) && |budgets| == |flows|
      modifies this, flows[v]
      ensures Apart() && |avail| == |flows| && ListOk() && Conserved(batch', total) && batch <= batch' && |batch'| <= num
      ensures Counts(total) && |total| == |flows| && (linked[v] || oob' != oob ==> avail[v] > 0)
      ensures Timely([v], now) && (old(NoIdle()) ==> NoIdle())
      ensures forall u :: 0 <= u < |flows| && u != v ==> avail[u] == old(avail)[u] && linked[u] == old(linked)[u]
      ensures forall u :: 0 <= u < |flows| && u != v ==> flows[u].q == old(flows[u].q) && flows[u].g == old(flows[u].g)
      ensures (|batch'| > |batch| ==> budgets[v] > 0) && forall k :: |batch| <= k < |batch'| ==> batch'[k].vm == v
      ensures list == old(list) + (if linked[v] then [v] else [])
      ensures oob' == oob || (oob' == oob + [v] && budgets[v] <= 0 && !linked[v])
      ensures avail[v] > 0 ==> linked[v] || oob' == oob + [v]
      ensures |batch'| == |batch| && linked[v] ==> rvq' != NONE
      ensures rvq' == rvq || (rvq == NONE && rvq' == v && budgets[v] > 0 && U32(total[v]) != 0
                              && (NoIdle() && total[v] < W32 ==> linked[v]))
      ensures old(IsBlocked(v, now)) && budgets[v] > 0 && old(avail)[v] > 0 ==>
        batch' == batch && linked[v] && avail[v] > 0 && IsBlocked(v, now)
      ensures old(IsDraining(v, now)) && budgets[v] > 0 && old(avail)[v] > 0 && |batch| + 1 < num && rvq == NONE ==>
        |batch'| == |batch| + 1 && !linked[v] && rvq' == v
      ensures NoIdle() && old(IsStarting(v, now)) && budgets[v] > 0 && old(avail)[v] > 0 && total[v] < W32 && |batch| + 1 < num ==>
        |batch'| == |batch| + 1 && linked[v] && IsBlocked(v, now) && HasSpent(v) && (rvq == NONE ==> rvq' == v)
      ensures budgets[v] > 0 && |batch'| < num ==> HasReached(v, now)
      ensures budgets[v] <= 0 ==> flows[v].q == old(flows[v].q) && flows[v].g == old(flows[v].g)
      ensures budgets[v] <= 0 && old(avail)[v] > 0 ==> oob' == oob + [v]
    {
      hide Stamp, Inv, Sum, BytesOf, Conserved, Counts, Chain, Busy, F.Punctual, F.Blocked, F.Draining, F.Starting, F.Spent,
           Distinct, F.Reached;
      HasTotal(total);
      rvq', batch', oob' := rvq, batch, oob;
      var had := avail[v];
      if budgets[v] > 0 {
        var limited;
        batch', limited := ServeVm(v, num, cur, num, batch, total, now);
        if had > 0 && limited && rvq == NONE {
          rvq' := v;
        }
      } else if had > 0 {
        oob' := oob + [v];
      }
    }

    /** The state vm_qman_poll cannot leave: it would stop at a VM that is no longer linked, and every VM that is
        linked waits for its due time. */
    ghost predicate Wedged(num: nat, budgets: seq<int>, batch: seq<VmShot>, rvq: int, now: int)
      reads this, flows
    {
      |batch| < num && rvq != NONE && StuckAt(Views(), list, avail, budgets, rvq, now)
    }

    ghost predicate StuckAt(ws: seq<View>, list: seq<nat>, avail: seq<nat>, budgets: seq<int>, rvq: int, now: int) {
      && |list| > 0 && rvq !in list && |budgets| == |flows| == |avail| == |ws|
      && forall u <- list :: u < |flows| && budgets[u] > 0 && avail[u] > 0 && F.Blocked(ws[u].q, ws[u].g, flows[u].n, now)
    }

    /** How it gets there: the first VM can send all it has, but flows without bytes wait in its skip list; every
        other VM waits for its due time. */
    ghost predicate Wedging(num: nat, budgets: seq<int>, batch: seq<VmShot>, now: int)
      reads this, flows
    {
      |batch| + 1 < num && AboutToStick(Views(), list, avail, budgets, now)
    }

    ghost predicate AboutToStick(ws: seq<View>, list: seq<nat>, avail: seq<nat>, budgets: seq<int>, now: int) {
      && |list| > 1 && |budgets| == |flows| == |avail| == |ws|
      && (forall u <- list :: u < |flows| && budgets[u] > 0 && avail[u] > 0)
      && list[0] < |flows| && F.Draining(ws[list[0]].q, ws[list[0]].g, flows[list[0]].n, now)
      && forall u <- list[1..] :: u < |flows| && F.Blocked(ws[u].q, ws[u].g, flows[u].n, now)
    }

    /** Take the first VM off the list and visit it. */
    method VisitFirst(num: nat, budgets: seq<int>, cur: nat, rvq: int, batch: seq<VmShot>, oob: seq<nat>,
                      ghost total: seq<nat>, ghost now: int)
      returns (ghost v: nat, rvq': int, batch': seq<VmShot>, oob': seq<nat>)
      requires Round(num, budgets, batch, oob, total, now) && cur == Stamp(now, MID) && |batch| < num && list != []
      modifies this, flows
      ensures Round(num, budgets, batch', oob', total, now) && (old(NoIdle()) ==> NoIdle())
      ensures v == old(list)[0] && v < |flows| == |total| && v !in old(list)[1..] && |linked| == |flows|
      ensures list == old(list)[1..] + (if linked[v] then [v] else []) && (budgets[v] > 0 ==> oob' == oob)
      ensures batch <= batch' && (|batch'| > |batch| ==> budgets[v] > 0)
      ensures forall k :: |batch| <= k < |batch'| ==> batch'[k].vm == v
      ensures forall u :: 0 <= u < |flows| && u != v ==> u < |old(avail)| && avail[u] == old(avail)[u]
      ensures forall u :: 0 <= u < |flows| && u != v ==> flows[u].q == old(flows[u].q) && flows[u].g == old(flows[u].g)
      ensures |batch'| == |batch| && linked[v] ==> rvq' != NONE
      ensures rvq' == rvq || (rvq == NONE && rvq' == v && budgets[v] > 0 && U32(total[v]) != 0
                              && (NoIdle() && total[v] < W32 ==> linked[v]))
      ensures old(IsBlocked(v, now)) && budgets[v] > 0 && old(avail)[v] > 0 ==>
        batch' == batch && linked[v] && avail[v] > 0 && IsBlocked(v, now)
      ensures old(IsDraining(v, now)) && budgets[v] > 0 && old(avail)[v] > 0 && |batch| + 1 < num && rvq == NONE ==>
        |batch'| == |batch| + 1 && !linked[v] && rvq' == v
      ensures NoIdle() && old(IsStarting(v, now)) && budgets[v] > 0 && old(avail)[v] > 0 && total[v] < W32 && |batch| + 1 < num ==>
        |batch'| == |batch| + 1 && linked[v] && IsBlocked(v, now) && HasSpent(v) && (rvq == NONE ==> rvq' == v)
      ensures budgets[v] > 0 && |batch'| < num ==> HasReached(v, now)
      ensures budgets[v] <= 0 ==> flows[v].q == old(flows[v].q) && flows[v].g == old(flows[v].g)
      ensures budgets[v] <= 0 && old(avail)[v] > 0 ==> oob' == oob + [v]
      ensures oob <= oob'
    {
      hide Stamp, Inv, Sum, BytesOf, Conserved, Apart, Counts, Charged, Chain, Busy, F.Punctual, F.Blocked, F.Draining, NoIdle,
           F.Starting, F.Spent, F.Reached, Distinct, SetAside, KeptTrack, U32;
      ChargedFirst(avail, total, list);
      var w := Pop();
      v := w;
      assert Timely([v], now);
      rvq', batch', oob' := Visit(w, num, budgets, cur, rvq, batch, oob, total, now);
      forall u | u in list || u in oob'
        ensures u < |flows| && F.Punctual(flows[u].q, flows[u].g, now)
      {
        if u != v {
          assert u in old(list) || u in oob;
        } else {
          assert v in [v];
        }
      }
      VisitedKeepsTrack(v, oob, budgets, old(avail), old(linked), oob', avail, linked);
      ChargedAfter(v, old(avail), avail, total, old(list), list);
      ChargedAfter(v, old(avail), avail, total, oob, oob');
    }

    /** One VM of the first pass. */
    method Turn(num: nat, budgets: seq<int>, cur: nat, rvq: int, batch: seq<VmShot>, oob: seq<nat>,
                ghost total: seq<nat>, ghost now: int)
      returns (rvq': int, batch': seq<VmShot>, oob': seq<nat>)
      requires Round(num, budgets, batch, oob, total, now) && cur == Stamp(now, MID)
      requires |batch| < num && list != [] && list[0] != rvq
      requires forall k :: 0 <= k < |batch| ==> batch[k].vm < |flows| && budgets[batch[k].vm] > 0
      modifies this, flows
      ensures Round(num, budgets, batch', oob', total, now) && (old(NoIdle()) ==> NoIdle())
      ensures forall k :: 0 <= k < |batch'| ==> batch'[k].vm < |flows| && budgets[batch'[k].vm] > 0
      ensures |batch'| >= |batch|
      ensures old(NoIdle()) && Fits(budgets, total) && (rvq == NONE || rvq in old(list)) ==> rvq' == NONE || rvq' in list
      ensures old(NoIdle()) && Fits(budgets, total) && (rvq == NONE || rvq in old(list)) && |batch'| == |batch| ==>
        || (rvq == NONE && rvq' != NONE)
        || (rvq == rvq' == NONE && |list| < |old(list)|)
        || (rvq == rvq' != NONE && IndexOf(list, rvq) < IndexOf(old(list), rvq))
      ensures old(Wedged(num, budgets, batch, rvq, now)) ==>
        Wedged(num, budgets, batch', rvq', now) && batch' == batch && rvq' == rvq
      ensures old(Wedging(num, budgets, batch, now)) && rvq == NONE ==>
        Wedged(num, budgets, batch', rvq', now) && |batch'| == |batch| + 1
      ensures var v := old(list)[0];
        && v < |flows| == |old(avail)| == |avail|
        && Advanced(old(Views()), Views(), v, budgets[v] > 0, |batch'| < num, now)
        && old(list)[1..] <= list && v !in old(list)[1..] && (rvq' == rvq || rvq' == v) && oob <= oob'
        && (forall u :: 0 <= u < |flows| && u != v ==> avail[u] == old(avail)[u])
        && (budgets[v] <= 0 && old(avail)[v] > 0 ==> v in oob')
    {
      hide Stamp, Round, NoIdle, F.Blocked, F.Draining, F.Reached, StuckAt, AboutToStick;
      HeadIs(num, budgets, batch, oob, total, now);
      ghost var v;
      v, rvq', batch', oob' := VisitFirst(num, budgets, cur, rvq, batch, oob, total, now);
      HeadIs(num, budgets, batch', oob', total, now);
      assert old(list) == [v] + old(list)[1..] && old(list)[1..] + [] == old(list)[1..];
      assert budgets[v] <= 0 && old(avail)[v] > 0 ==> v in oob + [v];
      if rvq != NONE && rvq in old(list) {
        IndexOfAppend(old(list)[1..], v, rvq);
      }
      StickAfter(old(Views()), old(list), old(avail), Views(), list, avail, budgets, v, linked[v], rvq, now);
    }

    /** VM v, the first of the list, has its turn: the state the loop cannot leave is kept, and entered. */
    lemma StickAfter(ws: seq<View>, list: seq<nat>, avail: seq<nat>, ws': seq<View>, list': seq<nat>, avail': seq<nat>,
                     budgets: seq<int>, v: nat, linked: bool, rvq: int, now: int)
      requires |list| > 0 && v == list[0] < |flows| == |ws| == |ws'| == |avail| == |avail'| && v !in list[1..]
      requires list' == list[1..] + if linked then [v] else []
      requires forall u :: 0 <= u < |flows| && u != v ==> avail'[u] == avail[u] && ws'[u] == ws[u]
      ensures StuckAt(ws, list, avail, budgets, rvq, now) ==>
        rvq != v && F.Blocked(ws[v].q, ws[v].g, flows[v].n, now) && budgets[v] > 0 && avail[v] > 0
      ensures StuckAt(ws, list, avail, budgets, rvq, now) && linked && Holds(ws', avail', v, now) ==>
        StuckAt(ws', list', avail', budgets, rvq, now)
      ensures AboutToStick(ws, list, avail, budgets, now) ==>
        F.Draining(ws[v].q, ws[v].g, flows[v].n, now) && budgets[v] > 0 && avail[v] > 0
      ensures AboutToStick(ws, list, avail, budgets, now) && !linked ==> StuckAt(ws', list', avail', budgets, v, now)
    {
      hide F.Blocked, F.Draining;
      assert list == [v] + list[1..] && list[1..] + [] == list[1..];
      if StuckAt(ws, list, avail, budgets, rvq, now) && linked && Holds(ws', avail', v, now) {
        forall u <- list'
          ensures u < |flows| && budgets[u] > 0 && avail'[u] > 0 && F.Blocked(ws'[u].q, ws'[u].g, flows[u].n, now)
        {
          assert u in list;
        }
        assert rvq !in list';
      }
    }

    /** VM v waits for its due time, with a count. */
    ghost predicate Holds(ws: seq<View>, avail: seq<nat>, v: nat, now: int)
      requires v < |flows| == |ws| == |avail|
    {
      avail[v] > 0 && F.Blocked(ws[v].q, ws[v].g, flows[v].n, now)
    }

    /** Any number of turns later, the loop of vm_qman_poll still goes on, and has served nothing. */
    method Spin(k: nat, num: nat, budgets: seq<int>, cur: nat, rvq: int, batch: seq<VmShot>, oob: seq<nat>,
                ghost total: seq<nat>, ghost now: int)
      returns (oob': seq<nat>)
      requires Round(num, budgets, batch, oob, total, now) && Wedged(num, budgets, batch, rvq, now) && cur == Stamp(now, MID)
      requires forall k :: 0 <= k < |batch| ==> batch[k].vm < |flows| && budgets[batch[k].vm] > 0
      modifies this, flows
      ensures Round(num, budgets, batch, oob', total, now) && Wedged(num, budgets, batch, rvq, now)
      ensures |batch| < num && head != NONE && head != rvq
    {
      hide Stamp, Round, NoIdle, Wedged;
      oob' := oob;
      Onward(num, budgets, batch, oob, rvq, total, now);
      for i := 0 to k
        invariant Round(num, budgets, batch, oob', total, now) && Wedged(num, budgets, batch, rvq, now)
        invariant |batch| < num && |list| > 0 && head == list[0] != rvq
      {
        var rvq', batch';
        rvq', batch', oob' := Turn(num, budgets, cur, rvq, batch, oob', total, now);
        Onward(num, budgets, batch, oob', rvq, total, now);
      }
    }

    lemma Onward(num: nat, budgets: seq<int>, batch: seq<VmShot>, oob: seq<nat>, rvq: int, total: seq<nat>, now: int)
      requires Round(num, budgets, batch, oob, total, now) && Wedged(num, budgets, batch, rvq, now)
      ensures |batch| < num && |list| > 0 && head == list[0] != rvq
    {
    }

    /** First pass of vm_qman_poll: serve VMs with budget round robin until the batch is full, the
        list is empty, or a rate-limited VM comes round again; set VMs without budget aside.  As long as no
        flow waits without bytes, each turn serves something, shortens the list, or comes closer to the
        rate-limited VM. */
    method ServeInBudget(num: nat, budgets: seq<int>, cur: nat, ghost total: seq<nat>, ghost now: int)
      returns (batch: seq<VmShot>, oob: seq<nat>)
      requires Round(num, budgets, [], [], total, now) && NoIdle() && Fits(budgets, total) && cur == Stamp(now, MID)
      modifies this, flows
      ensures Round(num, budgets, batch, oob, total, now) && NoIdle()
      ensures forall k :: 0 <= k < |batch| ==> batch[k].vm < |flows| && budgets[batch[k].vm] > 0
      ensures |budgets| == |flows| == |old(avail)|
      ensures |batch| < num ==> Progressed(old(Views()), Views(), InBudget(old(list), budgets), now)
      ensures |batch| < num ==>
        forall v <- old(list) :: v < |flows| && budgets[v] <= 0 && old(avail)[v] > 0 ==> v in oob
    {
      hide Stamp, Round, NoIdle, Wedged, Wedging, Advanced, Progressed;
      batch, oob := [], [];
      var rvq := NONE;
      HeadIs(num, budgets, batch, oob, total, now);
      ghost var todo, done := list, {};
      ProgressedStart(Views(), now);
      while |batch| < num && head != NONE
        invariant Round(num, budgets, batch, oob, total, now) && NoIdle() && |batch| <= num
        invariant forall k :: 0 <= k < |batch| ==> batch[k].vm < |flows| && budgets[batch[k].vm] > 0
        invariant rvq == NONE || rvq in list
        invariant head == At(list, 0)
        invariant |batch| < num ==> Progressed(old(Views()), Views(), done, now)
        invariant todo <= list && rvq !in todo && |avail| == |flows|
        invariant forall v <- todo :: v in old(list) && v < |flows| && avail[v] == old(avail)[v]
        invariant forall v <- old(list) :: v !in todo ==>
          v < |flows| && (budgets[v] > 0 ==> v in done) && (budgets[v] <= 0 && old(avail)[v] > 0 ==> v in oob)
        decreases num - |batch|, if rvq == NONE then 1 else 0, if rvq == NONE then |list| else IndexOf(list, rvq)
      {
        if rvq == head {
          break;
        }
        ghost var before, listed, v := Views(), list, list[0];
        rvq, batch, oob := Turn(num, budgets, cur, rvq, batch, oob, total, now);
        HeadIs(num, budgets, batch, oob, total, now);
        if |batch| < num {
          ProgressedStep(old(Views()), before, Views(), done, v, budgets[v] > 0, now);
        }
        ghost var next := if |todo| > 0 then todo[1..] else todo;
        TodoNext(todo, listed, list, v, next);
        done := if budgets[v] > 0 then done + {v} else done;
        todo := next;
      }
      if |batch| < num {
        assert todo == [];
        ProgressedLess(old(Views()), Views(), done, InBudget(old(list), budgets), now);
      }
    }

    lemma HeadIs(num: nat, budgets: seq<int>, batch: seq<VmShot>, oob: seq<nat>, total: seq<nat>, now: int)
      requires Round(num, budgets, batch, oob, total, now)
      ensures head == At(list, 0) && |batch| <= num && |budgets| == |flows| == |avail| == |linked|
      ensures forall v <- list :: v < |flows|
      ensures forall k :: 0 <= k < |oob| ==> oob[k] < |flows| && budgets[oob[k]] <= 0
    {
    }

    /** Serve a VM that was set aside, or just link it. */
    method TakeBack(serve: bool, v: nat, num: nat, cur: nat, stale: nat, batch: seq<VmShot>, ghost total: seq<nat>,
                    ghost now: int) returns (batch': seq<VmShot>)
      requires Apart() && ListOk() && v < |flows| && !linked[v] && Timely([v], now) && |avail| == |flows|
      requires Conserved(batch, total) && Counts(total) && Charged(avail, total, [v])
      requires (serve ==> |batch| < num) && |batch| <= num && cur == Stamp(now, MID)
      modifies this, flows[v]
      ensures Apart() && |avail| == |flows| && ListOk() && Conserved(batch', total) && Counts(total) && Timely([v], now)
      ensures batch <= batch' && |batch'| <= num && (!serve ==> batch' == batch) && (old(NoIdle()) ==> NoIdle())
      ensures forall k :: |batch| <= k < |batch'| ==> batch'[k].vm == v
      ensures forall u :: 0 <= u < |flows| && u != v ==> avail[u] == old(avail)[u] && linked[u] == old(linked)[u]
      ensures list == old(list) + (if linked[v] then [v] else []) && (avail[v] > 0 ==> linked[v])
      ensures avail[v] > 0 || U32(total[v]) == 0 || !linked[v]
      ensures Advanced(old(Views()), Views(), v, serve, |batch'| < num, now)
    {
      hide NoIdle, F.Reached, Stamp, Inv, Sum, BytesOf, Conserved, Apart, Counts, Chain, Busy, F.Punctual, Distinct, U32,
           F.Blocked, F.Draining, F.Starting, F.Spent;
      batch' := batch;
      assert v in [v];
      if serve {
        var limited;
        batch', limited := ServeVm(v, num, cur, stale, batch, total, now);
      } else {
        Activate(v);
      }
    }

    /** One VM of the second pass: served only if the first pass produced nothing. */
    method TurnAside(serve: bool, num: nat, budgets: seq<int>, cur: nat, stale: nat, batch: seq<VmShot>, oob: seq<nat>,
                     ghost total: seq<nat>, ghost now: int) returns (batch': seq<VmShot>)
      requires Round(num, budgets, batch, oob, total, now) && cur == Stamp(now, MID)
      requires |oob| > 0 && (serve ==> |batch| < num)
      modifies this, flows
      ensures Round(num, budgets, batch', oob[1..], total, now) && (old(NoIdle()) ==> NoIdle())
      ensures batch <= batch' && (!serve ==> batch' == batch)
      ensures forall k :: |batch| <= k < |batch'| ==> batch'[k].vm == oob[0]
      ensures Advanced(old(Views()), Views(), oob[0], serve, |batch'| < num, now)
    {
      hide NoIdle, F.Reached, Stamp, Inv, Sum, BytesOf, Conserved, Apart, Counts, Charged, Chain, Busy, F.Punctual,
           Distinct, SetAside, KeptTrack, U32;
      ChargedFirst(avail, total, oob);
      var v := oob[0];
      FirstAside(oob, budgets, linked);
      assert oob == [v] + oob[1..] && Timely([v], now);
      batch' := TakeBack(serve, v, num, cur, stale, batch, total, now);
      forall u | u in list || u in oob
        ensures u < |flows| && F.Punctual(flows[u].q, flows[u].g, now)
      {
        if u != v {
          assert u in old(list) || u in oob;
        } else {
          assert v in [v];
        }
      }
      TakenBackKeepsTrack(v, oob, budgets, old(avail), old(linked), avail, linked);
      ChargedAfter(v, old(avail), avail, total, old(list), list);
      ChargedAfter(v, old(avail), avail, total, oob, oob[1..]);
    }

    /** Second pass of vm_qman_poll. */
    method ServeAside(num: nat, budgets: seq<int>, cur: nat, stale: nat, batch0: seq<VmShot>, oob0: seq<nat>,
                      ghost total: seq<nat>, ghost now: int) returns (batch: seq<VmShot>)
      requires Round(num, budgets, batch0, oob0, total, now) && cur == Stamp(now, MID)
      requires |budgets| == |flows| && forall k :: 0 <= k < |oob0| ==> oob0[k] < |flows| && budgets[oob0[k]] <= 0
      modifies this, flows
      ensures Round(num, budgets, batch, [], total, now) && (old(NoIdle()) ==> NoIdle())
      ensures |batch0| > 0 ==> batch == batch0
      ensures |batch0| == 0 ==> forall k :: 0 <= k < |batch| ==> batch[k].vm < |flows| && budgets[batch[k].vm] <= 0
      ensures Others(old(Views()), Views(), oob0)
      ensures |batch0| == 0 && |batch| < num ==> Progressed(old(Views()), Views(), (set v | v in oob0), now)
    {
      hide Stamp, Round, NoIdle, Advanced, Progressed, Others;
      batch := batch0;
      var oob: seq<nat> := oob0;
      ghost var done := {};
      ProgressedStart(Views(), now);
      OthersStart(Views(), oob0);
      while |oob| > 0
        invariant Round(num, budgets, batch, oob, total, now) && (old(NoIdle()) ==> NoIdle())
        invariant |batch0| > 0 ==> batch == batch0
        invariant forall k :: 0 <= k < |oob| ==> oob[k] < |flows| && budgets[oob[k]] <= 0
        invariant |batch0| == 0 ==> forall k :: 0 <= k < |batch| ==> batch[k].vm < |flows| && budgets[batch[k].vm] <= 0
        invariant Others(old(Views()), Views(), oob0)
        invariant (forall v <- oob :: v in oob0) && forall v <- oob0 :: v in oob || v in done
        invariant |batch0| == 0 && |batch| < num ==> Progressed(old(Views()), Views(), done, now)
        decreases |oob|
      {
        ghost var before, v := Views(), oob[0];
        var serve := |batch| < num && |batch0| == 0;
        batch := TurnAside(serve, num, budgets, cur, stale, batch, oob, total, now);
        if |batch0| == 0 && |batch| < num {
          ProgressedStep(old(Views()), before, Views(), done, v, true, now);
        }
        OthersStep(old(Views()), before, Views(), oob0, v, serve, |batch| < num, now);
        done := done + {v};
        oob := oob[1..];
      }
      if |batch0| == 0 && |batch| < num {
        ProgressedLess(old(Views()), Views(), done, (set v | v in oob0), now);
      }
    }

    /** vm_qman_poll at real time `now`: at most num events; each VM's total drops by exactly the bytes
        reported for it; a batch with an event of a VM that has budget has none of a VM that has not;
        on return every VM whose count is not zero is linked, exactly once, and the counts follow the totals
        modulo 2^32, unless a VM with a count of zero was served.  With fewer events than asked for, every linked VM
        with budget has been polled until it had nothing left to do, and so has every other one with a count, if no
        event is of a VM with budget. */
    method Poll(num: nat, budgets: seq<int>, cur: nat, stale: nat, ghost now: int) returns (batch: seq<VmShot>)
      requires Valid() && NoIdle() && |budgets| == |flows| && Timely(list, now) && cur == Stamp(now, MID)
      requires forall v :: 0 <= v < |flows| && budgets[v] > 0 && avail[v] > 0 ==> Pending(v) < W32
      modifies this, flows
      ensures Valid() <==> forall v :: 0 <= v < |flows| ==> old(avail)[v] > 0 || U32(BytesOf(batch, v)) == 0
      ensures Apart() && ListOk() && NoIdle() && Timely(list, now) && |batch| <= num
      ensures forall v :: 0 <= v < |flows| ==>
        avail[v] == (if old(avail)[v] == 0 then 0 else U32(Pending(v))) && (avail[v] > 0 ==> linked[v])
      ensures forall v :: 0 <= v < |flows| ==> old(Pending(v)) == Pending(v) + BytesOf(batch, v)
      ensures forall k :: 0 <= k < |batch| ==> batch[k].vm < |flows|
      ensures AllBudgeted(batch, budgets) || NoneBudgeted(batch, budgets)
      ensures |batch| < num ==> forall v <- old(list) :: v < |flows| && (budgets[v] > 0 ==> HasReached(v, now))
      ensures |batch| < num && NoneBudgeted(batch, budgets) ==>
        forall v <- old(list) :: v < |flows| && (old(avail)[v] > 0 ==> HasReached(v, now))
    {
      hide Stamp, Round, Valid, NoIdle, BytesOf, U32, Pending, Timely, Progressed, F.Reached;
      ghost var total := seq(|flows|, v requires 0 <= v < |flows| reads flows => Pending(v));
      Begin(num, budgets, total, now);
      batch := ServeBoth(num, budgets, cur, stale, total, now);
      Finish(num, budgets, batch, total, now, old(avail));
    }

    /** Both passes of vm_qman_poll. */
    method ServeBoth(num: nat, budgets: seq<int>, cur: nat, stale: nat, ghost total: seq<nat>, ghost now: int)
      returns (batch: seq<VmShot>)
      requires Round(num, budgets, [], [], total, now) && NoIdle() && Fits(budgets, total) && cur == Stamp(now, MID)
      modifies this, flows
      ensures Round(num, budgets, batch, [], total, now) && NoIdle() && |batch| <= num
      ensures |budgets| == |flows| == |old(avail)| && forall v <- old(list) :: v < |flows|
      ensures forall k :: 0 <= k < |batch| ==> batch[k].vm < |flows|
      ensures AllBudgeted(batch, budgets) || NoneBudgeted(batch, budgets)
      ensures |batch| < num ==> forall v <- old(list) :: budgets[v] > 0 ==> Reached(old(Views())[v], Views()[v], now)
      ensures |batch| < num && NoneBudgeted(batch, budgets) ==>
        forall v <- old(list) :: old(avail)[v] > 0 ==> Reached(old(Views())[v], Views()[v], now)
    {
      hide Stamp, Round, NoIdle, Fits, Progressed, Reached;
      HeadIs(num, budgets, [], [], total, now);
      var oob;
      batch, oob := ServeInBudget(num, budgets, cur, total, now);
      HeadIs(num, budgets, batch, oob, total, now);
      ghost var between, none := Views(), |batch| == 0;
      batch := ServeAside(num, budgets, cur, stale, batch, oob, total, now);
      HeadIs(num, budgets, batch, [], total, now);
      assert !none ==> budgets[batch[0].vm] > 0;
      if |batch| < num {
        BothPasses(old(Views()), between, Views(), old(list), budgets, old(avail), oob, none, now);
      }
    }

    lemma Begin(num: nat, budgets: seq<int>, total: seq<nat>, now: int)
      requires Valid() && |budgets| == |flows| == |total| && Timely(list, now)
      requires forall v :: 0 <= v < |flows| ==> total[v] == Pending(v)
      ensures Round(num, budgets, [], [], total, now) && |avail| == |flows|
      ensures forall v :: 0 <= v < |flows| ==> avail[v] == U32(total[v])
    {
      hide Stamp, Inv, Sum, U32, Chain, F.Punctual;
      BytesOfEmpty();
    }

    lemma Finish(num: nat, budgets: seq<int>, batch: seq<VmShot>, total: seq<nat>, now: int, avail0: seq<nat>)
      requires Round(num, budgets, batch, [], total, now)
      requires |avail0| == |total| && forall v :: 0 <= v < |total| ==> avail0[v] == U32(total[v])
      ensures Apart() && ListOk() && Timely(list, now) && |batch| <= num && |avail| == |avail0| == |linked|
      ensures forall v :: 0 <= v < |flows| ==> total[v] == Pending(v) + BytesOf(batch, v)
      ensures forall v :: 0 <= v < |flows| ==>
        avail[v] == (if avail0[v] == 0 then 0 else U32(Pending(v))) && (avail[v] > 0 ==> linked[v])
      ensures Valid() <==> forall v :: 0 <= v < |flows| ==> avail0[v] > 0 || U32(BytesOf(batch, v)) == 0
    {
      hide Stamp, Inv, Sum, U32, Chain, BytesOf, F.Punctual, Charged;
      forall v | 0 <= v < |flows|
        ensures avail[v] == U32(Pending(v)) <==> avail0[v] > 0 || U32(BytesOf(batch, v)) == 0
      {
        if avail0[v] == 0 {
          ZeroLess(total[v], BytesOf(batch, v));
        }
      }
    }

    /** VMs set aside: distinct, without budget, in no list. */
    ghost predicate Aside(oob: seq<nat>, budgets: seq<int>)
      reads this`linked
    {
      |budgets| == |flows| == |linked| && SetAside(oob, budgets, linked)
    }
  }

  ghost predicate SetAside(oob: seq<nat>, budgets: seq<int>, linked: seq<bool>)
    requires |budgets| == |linked|
  {
    && Distinct(oob)
    && forall k :: 0 <= k < |oob| ==> oob[k] < |budgets| && budgets[oob[k]] <= 0 && !linked[oob[k]]
  }

  predicate KeptTrack(avail: seq<nat>, linked: seq<bool>, oob: seq<nat>)
    requires |avail| == |linked|
  {
    forall v :: 0 <= v < |avail| ==> avail[v] > 0 ==> linked[v] || v in oob
  }

  /** Each of these VMs still has a count, or began the poll without. */
  predicate Charged(avail: seq<nat>, total: seq<nat>, vms: seq<nat>) {
    |avail| == |total| && forall v <- vms :: v < |avail| && (avail[v] > 0 || U32(total[v]) == 0)
  }

  /** Serving a VM that began with a count cannot push its total past a multiple of 2^32 unnoticed. */
  ghost predicate Fits(budgets: seq<int>, total: seq<nat>) {
    |budgets| == |total| && forall v :: 0 <= v < |total| && budgets[v] > 0 && U32(total[v]) != 0 ==> total[v] < W32
  }

  lemma ChargedFirst(avail: seq<nat>, total: seq<nat>, vms: seq<nat>)
    requires Charged(avail, total, vms) && vms != []
    ensures Charged(avail, total, [vms[0]]) && |avail| == |total| && vms[0] < |avail|
    ensures avail[vms[0]] > 0 || U32(total[vms[0]]) == 0
  {
    assert vms[0] in vms;
  }

  lemma ChargedAfter(v: nat, avail: seq<nat>, avail': seq<nat>, total: seq<nat>, vms: seq<nat>, vms': seq<nat>)
    requires Charged(avail, total, vms) && |avail'| == |avail| && v < |avail|
    requires forall u :: 0 <= u < |avail| && u != v ==> avail'[u] == avail[u]
    requires forall u <- vms' :: u in vms || u == v
    requires v in vms' ==> avail'[v] > 0 || U32(total[v]) == 0
    ensures Charged(avail', total, vms')
  {
  }

  /** A VM that was linked is visited: it is linked again, set aside, or has nothing left. */
  lemma VisitedKeepsTrack(v: nat, oob: seq<nat>, budgets: seq<int>, avail: seq<nat>, linked: seq<bool>,
                          oob': seq<nat>, avail': seq<nat>, linked': seq<bool>)
    requires |avail| == |linked| == |avail'| == |linked'| == |budgets| && v < |avail|
    requires SetAside(oob, budgets, linked) && KeptTrack(avail, linked, oob) && linked[v]
    requires oob' == oob || (oob' == oob + [v] && budgets[v] <= 0 && !linked'[v])
    requires forall u :: 0 <= u < |avail| && u != v ==> avail'[u] == avail[u] && linked'[u] == linked[u]
    requires avail'[v] > 0 ==> linked'[v] || oob' == oob + [v]
    ensures SetAside(oob', budgets, linked') && KeptTrack(avail', linked', oob') && v !in oob
  {
    forall k | 0 <= k < |oob|
      ensures oob[k] != v && !linked'[oob[k]]
    {
    }
    if oob' == oob + [v] {
      assert v in oob' && forall u :: u in oob ==> u in oob';
    }
  }

  lemma FirstAside(oob: seq<nat>, budgets: seq<int>, linked: seq<bool>)
    requires |budgets| == |linked| && SetAside(oob, budgets, linked) && |oob| > 0
    ensures oob[0] < |budgets| && !linked[oob[0]]
  {
  }

  /** The first VM set aside is looked at again: it is linked or has nothing left. */
  lemma TakenBackKeepsTrack(v: nat, oob: seq<nat>, budgets: seq<int>, avail: seq<nat>, linked: seq<bool>,
                            avail': seq<nat>, linked': seq<bool>)
    requires |avail| == |linked| == |avail'| == |linked'| == |budgets| && v < |avail| && |oob| > 0 && oob[0] == v
    requires SetAside(oob, budgets, linked) && KeptTrack(avail, linked, oob)
    requires forall u :: 0 <= u < |avail| && u != v ==> avail'[u] == avail[u] && linked'[u] == linked[u]
    requires avail'[v] > 0 ==> linked'[v]
    ensures SetAside(oob[1..], budgets, linked') && KeptTrack(avail', linked', oob[1..]) && v !in oob[1..]
  {
    assert oob == [v] + oob[1..];
    forall k | 0 <= k < |oob[1..]|
      ensures oob[1..][k] == oob[k + 1] != v
    {
    }
  }

  /** The byte count a change asks for. */
  function NewTotal(prev: nat, c: F.Change): nat {
    if c.setAvail then c.avail else if c.addAvail then prev + c.avail else prev
  }

  /** The count follows the sum over the flows modulo 2^32, also where a flow's own count wraps. */
  lemma CountFits(total: nat, prev: nat, c: F.Change)
    ensures U32(U32(total) - prev + NewTotal(prev, c)) == U32(total - prev + F.NewAvail(prev, c))
  {
    hide U32;
    var d := NewTotal(prev, c) - prev;
    U32Absorb(total, d);
    assert U32(total) + d == U32(total) - prev + NewTotal(prev, c);
    U32Absorb(prev + c.avail, total - prev);
    assert U32(prev + c.avail) + (total - prev) == total - prev + U32(prev + c.avail);
    assert prev + c.avail + (total - prev) == total - prev + (prev + c.avail) == total + c.avail;
    assert total - prev + NewTotal(prev, c) == total + d;
  }

  lemma BytesOfEmpty()
    ensures forall v :: BytesOf([], v) == 0
  {
  }

  lemma BatchGrown(batch: seq<VmShot>, shots: seq<F.Shot>, v: nat, n: nat)
    ensures forall u :: 0 <= u < n ==>
      BytesOf(batch + Tag(shots, v), u) == BytesOf(batch, u) + if u == v then F.Bytes(shots) else 0
  {
    forall u | 0 <= u < n
      ensures BytesOf(batch + Tag(shots, v), u) == BytesOf(batch, u) + if u == v then F.Bytes(shots) else 0
    {
      BytesOfConcat(batch, Tag(shots, v), u);
      TagBytes(shots, v, u);
    }
  }
}
