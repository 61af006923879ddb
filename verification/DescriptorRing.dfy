/** The shared descriptor rings between library and fast path (tas/fast/fast_appctx.c,
    lib/tas/init.c): one producer, one consumer, a type byte per slot, credit found by probing. */
module DescriptorRing {
  import opened Circular

  /** A slot: its type byte (zero or not) and its message. */
  datatype Slot<M> = Slot(full: bool, msg: M)

  /** Shared slots; producer position and credit (in slots); consumer fetch position and the
      positions it has fetched but not cleared yet, oldest first. */
  datatype Ring<M> = Ring(slots: seq<Slot<M>>, tail: nat, credit: nat, fetch: nat, pending: seq<nat>)

  /** Ghost view: all messages published so far, and how many slots were reserved, fetched, cleared,
      and found cleared by the producer. */
  datatype Trace<M> = Trace(sent: seq<M>, reserved: nat, fetched: nat, cleared: nat, freed: nat)

  /** The ring refines a FIFO: slots hold exactly the published, uncleared messages in order, and
      the producer's credit never exceeds the cleared slots ahead of it. */
  ghost predicate Inv<M(!new)>(r: Ring<M>, t: Trace<M>) {
    var n := |r.slots|;
    && 0 < n
    && t.freed <= t.cleared <= t.fetched <= |t.sent| <= t.reserved <= t.freed + n
    && r.credit == n - (t.reserved - t.freed)
    && r.tail == Cell(t.reserved, n) && r.fetch == Cell(t.fetched, n)
    && |r.pending| == t.fetched - t.cleared
    && (forall k {:trigger r.pending[k]} :: 0 <= k < |r.pending| ==> r.pending[k] == Cell(t.cleared + k, n))
    && (forall j {:trigger t.sent[j]} :: t.cleared <= j < |t.sent| ==> r.slots[Cell(j, n)] == Slot(true, t.sent[j]))
    && (forall j {:trigger Cell(j, n)} :: |t.sent| <= j < t.cleared + n ==> !r.slots[Cell(j, n)].full)
  }

  datatype Step<M> =
    | Reserve            // producer: take a slot (flextcp_context_tx_alloc, fast_actx_rxq_alloc)
    | Fill(msg: M)       // producer: write the message into the oldest reserved slot
    | Publish            // producer: set its type byte
    | Probe              // producer: look at the slot after its credit (txq_probe, fast_actx_rxq_probe)
    | Fetch              // consumer: look at the next slot (fast_appctx_poll_fetch, fastpath_poll_vec)
    | Clear              // consumer: process the oldest fetched slot and clear its type byte
    | Rewind             // consumer: forget what was fetched and not processed

  /** Batches of at most `batch` fetched slots. */
  ghost predicate Enabled<M(!new)>(r: Ring<M>, t: Trace<M>, st: Step<M>, batch: nat) {
    match st
    case Reserve => r.credit > 0
    case Fill(_) => |t.sent| < t.reserved
    case Publish => |t.sent| < t.reserved
    case Probe => t.reserved == |t.sent| && r.credit < |r.slots|
    case Fetch => |r.pending| < batch
    case Clear => |r.pending| > 0
    case Rewind => true
  }

  datatype Result<M> = Result(ring: Ring<M>, trace: Trace<M>, taken: seq<M>)

  ghost function Next<M(!new)>(r: Ring<M>, t: Trace<M>, st: Step<M>, batch: nat): Result<M>
    requires Inv(r, t) && Enabled(r, t, st, batch)
  {
    var n := |r.slots|;
    match st
    case Reserve =>
      Result(r.(tail := Bump(r.tail, 1, n), credit := r.credit - 1), t.(reserved := t.reserved + 1), [])
    case Fill(msg) =>
      var c := Cell(|t.sent|, n);
      Result(r.(slots := r.slots[c := r.slots[c].(msg := msg)]), t, [])
    case Publish =>
      var c := Cell(|t.sent|, n);
      Result(r.(slots := r.slots[c := r.slots[c].(full := true)]), t.(sent := t.sent + [r.slots[c].msg]), [])
    case Probe =>
      if r.slots[Cell(r.tail + r.credit, n)].full then Result(r, t, [])
      else Result(r.(credit := r.credit + 1), t.(freed := t.freed + 1), [])
    case Fetch =>
      if r.slots[r.fetch].full then
        Result(r.(fetch := Bump(r.fetch, 1, n), pending := r.pending + [r.fetch]), t.(fetched := t.fetched + 1), [])
      else Result(r, t, [])
    case Clear =>
      var c := r.pending[0];
      Result(r.(slots := r.slots[c := r.slots[c].(full := false)], pending := r.pending[1..]),
             t.(cleared := t.cleared + 1), [r.slots[c].msg])
    case Rewind =>
      Result(r.(fetch := Cell(t.cleared, n), pending := []), t.(fetched := t.cleared), [])
  }

  /** A slot's neighbours within one ring length are other slots. */
  lemma OtherCell(i: nat, j: nat, n: nat)
    requires i != j && i < j + n && j < i + n
    ensures Cell(i, n) != Cell(j, n)
  {
    if i < j {
      CellBump(i, j - i, n);
    } else {
      CellBump(j, i - j, n);
    }
  }

  lemma OtherCells(i: nat, n: nat)
    requires 0 < n
    ensures forall j: nat {:trigger Cell(j, n)} :: i != j && i < j + n && j < i + n ==> Cell(i, n) != Cell(j, n)
  {
    forall j: nat {:trigger Cell(j, n)} | i != j && i < j + n && j < i + n
      ensures Cell(i, n) != Cell(j, n)
    {
      OtherCell(i, j, n);
    }
  }

  /** Probing sees the oldest slot not yet credited; it is empty only if it was cleared. */
  lemma ProbeSafe<M(!new)>(r: Ring<M>, t: Trace<M>)
    requires Inv(r, t) && t.reserved == |t.sent| && r.credit < |r.slots|
    ensures Cell(r.tail + r.credit, |r.slots|) == Cell(t.freed, |r.slots|)
    ensures !r.slots[Cell(t.freed, |r.slots|)].full <==> t.freed < t.cleared
  {
    hide Cell;
    var n := |r.slots|;
    CellAbsorb(t.reserved, r.credit, n);
    CellAbsorb(t.freed, n, n);
    CellAbsorb(t.freed, 0, n);
    CellBump(t.freed, n, n);
    assert t.reserved + r.credit == t.freed + n;
    if t.freed < t.cleared {
      assert t.freed + n < t.cleared + n && |t.sent| <= t.freed + n;
    } else {
      var m := t.sent[t.freed];
      assert r.slots[Cell(t.freed, n)] == Slot(true, m);
    }
  }

  /** A full slot at the fetch position is the next unfetched message, unless the whole ring is
      already fetched and uncleared, when it is the oldest fetched one again. */
  lemma FetchExact<M(!new)>(r: Ring<M>, t: Trace<M>)
    requires Inv(r, t)
    ensures r.slots[r.fetch].full <==> t.fetched < |t.sent| || |r.pending| == |r.slots|
    ensures r.slots[r.fetch].full ==> (r.fetch in r.pending <==> |r.pending| == |r.slots|)
    ensures t.fetched < |t.sent| ==> r.slots[r.fetch] == Slot(true, t.sent[t.fetched])
  {
    hide Cell;
    var n := |r.slots|;
    if |r.pending| == n {
      CellBump(t.cleared, n, n);
      CellBump(t.cleared, 0, n);
      assert r.pending[0] == Cell(t.cleared + 0, n);
      assert r.fetch == r.pending[0];
      var m := t.sent[t.cleared];
      assert r.slots[Cell(t.cleared, n)] == Slot(true, m);
    } else {
      if t.fetched < |t.sent| {
        var m := t.sent[t.fetched];
        assert r.slots[Cell(t.fetched, n)] == Slot(true, m);
      } else {
        assert !r.slots[Cell(t.fetched, n)].full;
      }
      OtherCells(t.fetched, n);
    }
  }

  /** Looking at a slot pays off exactly if there is something to find: a fetch takes up the next message exactly if one
      is published and not fetched, a probe gains a slot exactly if one was cleared and not yet counted. */
  lemma FindsIff<M(!new)>(r: Ring<M>, t: Trace<M>, batch: nat)
    requires Inv(r, t)
    ensures |r.pending| < batch && |r.pending| < |r.slots| ==>
      Next(r, t, Fetch, batch).trace.fetched == t.fetched + if t.fetched < |t.sent| then 1 else 0
    ensures t.reserved == |t.sent| && r.credit < |r.slots| ==>
      Next(r, t, Probe, batch).ring.credit == r.credit + if t.freed < t.cleared then 1 else 0
  {
    hide Cell;
    FetchExact(r, t);
    if t.reserved == |t.sent| && r.credit < |r.slots| {
      ProbeSafe(r, t);
    }
  }

  /** The invariant holds again, nothing published is lost, and what the consumer took are the next
      published messages. */
  ghost predicate Good<M(!new)>(r: Ring<M>, t: Trace<M>, x: Result<M>) {
    && Inv(x.ring, x.trace) && |x.ring.slots| == |r.slots|
    && t.sent <= x.trace.sent && t.cleared <= x.trace.cleared <= |x.trace.sent|
    && x.taken == x.trace.sent[t.cleared..x.trace.cleared]
  }

  lemma ProducerInv<M(!new)>(r: Ring<M>, t: Trace<M>, st: Step<M>, batch: nat)
    requires Inv(r, t) && Enabled(r, t, st, batch) && (st.Reserve? || st.Fill? || st.Probe?)
    ensures Good(r, t, Next(r, t, st, batch))
  {
    hide Cell;
    var n := |r.slots|;
    match st
    case Reserve => CellBump(t.reserved, 1, n);
    case Fill(_) => OtherCells(|t.sent|, n);
    case Probe => ProbeSafe(r, t);
  }

  lemma PublishInv<M(!new)>(r: Ring<M>, t: Trace<M>, batch: nat)
    requires Inv(r, t) && |t.sent| < t.reserved
    ensures Good(r, t, Next(r, t, Publish, batch))
  {
    hide Cell;
    OtherCells(|t.sent|, |r.slots|);
  }

  lemma FetchInv<M(!new)>(r: Ring<M>, t: Trace<M>, batch: nat)
    requires Inv(r, t) && |r.pending| < batch <= |r.slots|
    ensures Good(r, t, Next(r, t, Fetch, batch))
  {
    hide Cell;
    FetchExact(r, t);
    CellBump(t.fetched, 1, |r.slots|);
  }

  /** The slots once the oldest fetched one is cleared. */
  lemma ClearSlots<M(!new)>(r: Ring<M>, t: Trace<M>)
    requires Inv(r, t) && |r.pending| > 0
    ensures var n := |r.slots|;
      && r.pending[0] == Cell(t.cleared, n) && t.cleared < |t.sent|
      && r.slots[r.pending[0]] == Slot(true, t.sent[t.cleared])
      && var slots := r.slots[r.pending[0] := r.slots[r.pending[0]].(full := false)];
         && (forall j {:trigger t.sent[j]} :: t.cleared < j < |t.sent| ==> slots[Cell(j, n)] == Slot(true, t.sent[j]))
         && (forall j: nat {:trigger Cell(j, n)} :: |t.sent| <= j < t.cleared + 1 + n ==> !slots[Cell(j, n)].full)
  {
    hide Cell;
    var n := |r.slots|;
    CellBump(t.cleared, n, n);
    CellBump(t.cleared, 0, n);
    assert r.pending[0] == Cell(t.cleared + 0, n);
    OtherCells(t.cleared, n);
  }

  lemma ClearInv<M(!new)>(r: Ring<M>, t: Trace<M>, batch: nat)
    requires Inv(r, t) && |r.pending| > 0
    ensures Good(r, t, Next(r, t, Clear, batch))
  {
    hide Cell;
    ClearSlots(r, t);
    var n, x := |r.slots|, Next(r, t, Clear, batch);
    forall k | 0 <= k < |x.ring.pending|
      ensures x.ring.pending[k] == Cell(x.trace.cleared + k, n)
    {
      assert x.ring.pending[k] == r.pending[k + 1];
    }
  }

  lemma RewindInv<M(!new)>(r: Ring<M>, t: Trace<M>, batch: nat)
    requires Inv(r, t)
    ensures Good(r, t, Next(r, t, Rewind, batch))
  {
    hide Cell;
  }

  /** Every step keeps the invariant, for batches no longer than the ring. */
  lemma StepGood<M(!new)>(r: Ring<M>, t: Trace<M>, st: Step<M>, batch: nat)
    requires Inv(r, t) && Enabled(r, t, st, batch) && batch <= |r.slots|
    ensures Good(r, t, Next(r, t, st, batch))
  {
    hide Inv, Next, Good;
    match st
    case Publish => PublishInv(r, t, batch);
    case Fetch => FetchInv(r, t, batch);
    case Clear => ClearInv(r, t, batch);
    case Rewind => RewindInv(r, t, batch);
    case _ => ProducerInv(r, t, st, batch);
  }

  ghost predicate AllEnabled<M(!new)>(r: Ring<M>, t: Trace<M>, sts: seq<Step<M>>, batch: nat)
    requires Inv(r, t) && batch <= |r.slots|
    decreases |sts|
  {
    |sts| > 0 ==>
      && Enabled(r, t, sts[0], batch)
      && (StepGood(r, t, sts[0], batch);
          var x := Next(r, t, sts[0], batch); AllEnabled(x.ring, x.trace, sts[1..], batch))
  }

  ghost function Run<M(!new)>(r: Ring<M>, t: Trace<M>, sts: seq<Step<M>>, batch: nat): Result<M>
    requires Inv(r, t) && batch <= |r.slots| && AllEnabled(r, t, sts, batch)
    decreases |sts|
  {
    if |sts| == 0 then Result(r, t, [])
    else
      StepGood(r, t, sts[0], batch);
      var x := Next(r, t, sts[0], batch);
      var y := Run(x.ring, x.trace, sts[1..], batch);
      y.(taken := x.taken + y.taken)
  }

  /** Over every interleaving of producer, consumer and probe steps, with batches no longer than the
      ring, the messages taken are exactly the messages published, in order: none is overwritten
      before it was read, none is read twice, none is skipped. */
  lemma {:induction false} RingIsFifo<M(!new)>(r: Ring<M>, t: Trace<M>, sts: seq<Step<M>>, batch: nat)
    requires Inv(r, t) && batch <= |r.slots| && AllEnabled(r, t, sts, batch)
    ensures Good(r, t, Run(r, t, sts, batch))
    decreases |sts|
  {
    hide Inv, Next, Enabled;
    if |sts| > 0 {
      StepGood(r, t, sts[0], batch);
      var x := Next(r, t, sts[0], batch);
      RingIsFifo(x.ring, x.trace, sts[1..], batch);
    } else {
      InvBounds(r, t);
    }
  }

  lemma InvBounds<M(!new)>(r: Ring<M>, t: Trace<M>)
    requires Inv(r, t)
    ensures t.cleared <= |t.sent|
  {
  }

  /** Why the ring must not be shorter than a batch: once a batch holds the whole ring, the next
      fetch returns a message that was already fetched; and only then. */
  lemma FetchTwiceIff<M(!new)>(r: Ring<M>, t: Trace<M>, batch: nat)
    requires Inv(r, t) && |r.pending| < batch
    ensures var x := Next(r, t, Fetch, batch).ring;
      |x.pending| > |r.pending| && x.pending[|r.pending|] in r.pending <==> |r.pending| == |r.slots|
  {
    hide Cell;
    FetchExact(r, t);
  }

  /** A freshly installed ring: all type bytes zero, full credit. */
  lemma EmptyInv<M(!new)>(slots: seq<Slot<M>>)
    requires 0 < |slots| && forall i :: 0 <= i < |slots| ==> !slots[i].full
    ensures Inv(Ring(slots, 0, |slots|, 0, []), Trace([], 0, 0, 0, 0))
  {
  }

  /** The two ends of a ring, updated in place by producer and consumer; each method is one atomic
      part of the source's code, so any order of calls is an interleaving of the two processes. */
  class SharedRing<M(!new)> {
    const slots: array<Slot<M>>
    var tail: nat
    var credit: nat
    var fetch: nat
    var pending: seq<nat>
    ghost var trace: Trace<M>

    ghost function State(): Ring<M>
      reads this, slots
    {
      Ring(slots[..], tail, credit, fetch, pending)
    }

    ghost predicate Valid()
      reads this, slots
    {
      Inv(State(), trace)
    }

    constructor (slots: array<Slot<M>>)
      requires 0 < slots.Length && forall i :: 0 <= i < slots.Length ==> !slots[i].full
      ensures this.slots == slots && Valid() && trace == Trace([], 0, 0, 0, 0)
    {
      this.slots := slots;
      tail, credit, fetch, pending := 0, slots.Length, 0, [];
      trace := Trace([], 0, 0, 0, 0);
      new;
      EmptyInv(slots[..]);
    }

    /** flextcp_context_tx_alloc and conns_bump up to flextcp_context_tx_done: reserve a slot, write
        the message, set the type byte; false when there is no credit. */
    method Enqueue(msg: M) returns (ok: bool)
      requires Valid() && trace.reserved == |trace.sent|
      modifies this`tail, this`credit, this`trace, slots
      ensures Valid() && trace.reserved == |trace.sent|
      ensures ok <==> old(credit) > 0
      ensures trace.sent == if ok then old(trace.sent) + [msg] else old(trace.sent)
      ensures trace.cleared == old(trace.cleared) && trace.fetched == old(trace.fetched)
    {
      hide Cell, Inv;
      ok := credit > 0;
      if !ok {
        return;
      }
      ghost var r0, t0 := State(), trace;
      TailIs(r0, t0);
      ghost var x1 := Next(r0, t0, Reserve, 0);
      ProducerInv(r0, t0, Reserve, 0);
      ghost var x2 := Next(x1.ring, x1.trace, Fill(msg), 0);
      ProducerInv(x1.ring, x1.trace, Fill(msg), 0);
      ghost var x3 := Next(x2.ring, x2.trace, Publish, 0);
      PublishInv(x2.ring, x2.trace, 0);
      slots[tail] := Slot(slots[tail].full, msg);
      slots[tail] := Slot(true, slots[tail].msg);
      tail := tail + 1;
      if tail >= slots.Length {
        tail := tail - slots.Length;
      }
      credit := credit - 1;
      assert slots[..] == x3.ring.slots;
      trace := x3.trace;
    }

    /** txq_probe and fast_actx_rxq_probe: once credit is down to half, collect slots the consumer has
        cleared, oldest first, at most 2 * n of them. */
    method Probe(n: nat)
      requires Valid() && trace.reserved == |trace.sent|
      modifies this`credit, this`trace
      ensures Valid() && trace == old(trace).(freed := trace.freed)
      ensures old(credit) > slots.Length / 2 ==> credit == old(credit)
      ensures credit - old(credit) == trace.freed - old(trace.freed) <= 2 * n
      ensures old(credit) <= slots.Length / 2 && credit - old(credit) < 2 * n ==> trace.freed == trace.cleared
    {
      hide Cell, Inv;
      if credit > slots.Length / 2 {
        return;
      }
      TailIs(State(), trace);
      CreditIs(State(), trace);
      var pos := tail + credit;
      if pos >= slots.Length {
        pos := pos - slots.Length;
      }
      PosIs(tail + credit, slots.Length);
      var i := 0;
      while credit < slots.Length && i < 2 * n
        invariant Valid() && trace.reserved == |trace.sent| && 0 <= i <= 2 * n
        invariant trace == old(trace).(freed := trace.freed)
        invariant credit - old(credit) == trace.freed - old(trace.freed) == i
        invariant credit <= slots.Length
        invariant credit < slots.Length ==> pos == Cell(tail + credit, slots.Length)
      {
        hide Valid;
        var more := Collect(pos);
        if !more {
          return;
        }
        NextPos(tail + credit - 1, slots.Length);
        pos := pos + 1;
        if pos >= slots.Length {
          pos := pos - slots.Length;
        }
        i := i + 1;
      }
      CreditIs(State(), trace);
    }

    /** Collect the slot after the free ones, if the consumer has cleared it. */
    method Collect(pos: nat) returns (cleared: bool)
      requires Valid() && trace.reserved == |trace.sent| && credit < slots.Length
      requires pos == Cell(tail + credit, slots.Length)
      modifies this`credit, this`trace
      ensures Valid() && (!cleared ==> trace == old(trace) && credit == old(credit) && trace.freed == trace.cleared)
      ensures cleared ==> trace == old(trace).(freed := old(trace.freed) + 1) && credit == old(credit) + 1
    {
      hide Cell, Inv;
      CreditIs(State(), trace);
      ProbeSafe(State(), trace);
      ProducerInv(State(), trace, Step.Probe, 0);
      assert slots[pos] == State().slots[pos];
      cleared := !slots[pos].full;
      if cleared {
        credit := credit + 1;
        trace := trace.(freed := trace.freed + 1);
      }
    }

    /** fast_appctx_poll_fetch: note the next published entry; false when there is none. */
    method Fetch(ghost batch: nat) returns (found: bool)
      requires Valid() && |pending| < batch <= slots.Length
      modifies this`fetch, this`pending, this`trace
      ensures Valid() && |pending| <= batch
      ensures found <==> old(trace.fetched) < |trace.sent|
      ensures trace == old(trace).(fetched := old(trace.fetched) + if found then 1 else 0)
    {
      hide Cell, Inv;
      FetchExact(State(), trace);
      FetchInv(State(), trace, batch);
      CreditIs(State(), trace);
      found := slots[fetch].full;
      if found {
        pending := pending + [fetch];
        fetch := fetch + 1;
        if fetch >= slots.Length {
          fetch := fetch - slots.Length;
        }
        trace := trace.(fetched := trace.fetched + 1);
      }
    }

    /** fast_appctx_poll_bump: process the oldest fetched entry and clear its type byte. */
    method Process() returns (msg: M)
      requires Valid() && |pending| > 0
      modifies this`pending, this`trace, slots
      ensures Valid() && old(trace.cleared) < |trace.sent|
      ensures msg == trace.sent[old(trace.cleared)] && trace == old(trace).(cleared := old(trace.cleared) + 1)
    {
      hide Cell, Inv;
      ghost var r0, t0 := State(), trace;
      ClearInv(r0, t0, 0);
      PendingIs(r0, t0);
      var c := pending[0];
      msg := slots[c].msg;
      slots[c] := Slot(false, msg);
      pending := pending[1..];
      trace := trace.(cleared := trace.cleared + 1);
      assert slots[..] == Next(r0, t0, Clear, 0).ring.slots;
    }
  }

  lemma PendingIs<M(!new)>(r: Ring<M>, t: Trace<M>)
    requires Inv(r, t) && |r.pending| > 0
    ensures r.pending[0] < |r.slots| && t.cleared < |t.sent|
  {
  }

  lemma CreditIs<M(!new)>(r: Ring<M>, t: Trace<M>)
    requires Inv(r, t)
    ensures r.tail < |r.slots| && r.fetch < |r.slots| && r.credit <= |r.slots| && t.freed <= t.cleared <= |t.sent|
    ensures r.credit == |r.slots| && t.reserved == |t.sent| ==> t.freed == t.cleared
  {
  }

  lemma PosIs(p: nat, n: nat)
    requires p < 2 * n
    ensures Cell(p, n) == if p >= n then p - n else p
  {
  }

  lemma NextPos(p: nat, n: nat)
    requires 0 < n
    ensures Cell(p + 1, n) == Bump(Cell(p, n), 1, n)
  {
    CellBump(p, 1, n);
  }

  lemma TailIs<M(!new)>(r: Ring<M>, t: Trace<M>)
    requires Inv(r, t)
    ensures r.tail == Cell(t.reserved, |r.slots|) && 0 < |r.slots|
  {
  }
}
