/** Per-VM flow queues of the queue manager (tas/fast/qman.c): state and invariant. */
module FlowQueues {
  import opened Timestamps
  import opened IndexList
  import opened SkipLevels

  const LEVELS: nat := 4
  const MID: nat := 0x8000_0000

  /** struct flow_qman and its array of struct flow_queue, one sequence per field, with the virtual
      and real time of the VM they belong to. */
  datatype Queues = Queues(next: seq<seq<int>>, head: seq<int>, nextTs: seq<nat>, rate: seq<nat>,
                           avail: seq<nat>, maxChunk: seq<nat>, inSkip: seq<bool>, inNolimit: seq<bool>,
                           nolimitHead: int, nolimitTail: int, nolimitFirst: bool,
                           tsVirtual: nat, tsReal: nat)

  /** What happened to a queue: it fired at virtual time vt, or its rate or chunk size was changed. */
  datatype Event = Fired(idx: nat, vt: int, bytes: nat, rate: nat) | Configured(idx: nat)

  /** Ghost view: skip list in time order, level of each queue, absolute due times, the no-limit
      list, absolute virtual and real time, and the history. */
  datatype Shadow = Shadow(order: seq<nat>, height: seq<nat>, due: seq<int>, nolimit: seq<nat>,
                           vt: int, rt: int, log: seq<Event>)

  /** Virtual nanoseconds that `bytes` take at `rate` kbit/s (flow_queue_new_ts). */
  function Delay(bytes: nat, rate: nat): nat
    requires rate > 0
  {
    bytes * 8000000 / rate
  }

  /** The delay is what the bytes take, rounded down: in a nanosecond, `rate` kbit/s let rate / 8000000 bytes through. */
  lemma DelayExact(bytes: nat, rate: nat)
    requires rate > 0
    ensures Delay(bytes, rate) * rate <= bytes * 8000000 < (Delay(bytes, rate) + 1) * rate
  {
    var x := bytes * 8000000;
    DivExact(x, rate);
  }

  lemma DivExact(x: nat, r: nat)
    requires r > 0
    ensures (x / r) * r <= x < (x / r + 1) * r
  {
    assert x == (x / r) * r + x % r;
  }

  /** In `gap` nanoseconds and one more, `rate` kbit/s let more than the bytes through. */
  predicate Spaced(bytes: nat, rate: nat, gap: int) {
    (gap + 1) * rate > bytes * 8000000
  }

  lemma DelaySpaced(bytes: nat, rate: nat, gap: int)
    requires rate > 0
    ensures Spaced(bytes, rate, gap) <==> gap >= Delay(bytes, rate)
  {
    hide Delay;
    var d := Delay(bytes, rate);
    DelayExact(bytes, rate);
    if gap >= d {
      MulMonotone(d + 1, gap + 1, rate);
    } else if gap >= 0 {
      MulMonotone(gap + 1, d, rate);
    } else {
      assert (gap + 1) * rate <= 0;
    }
  }

  lemma DelayMonotone(b: nat, m: nat, rate: nat)
    requires rate > 0 && b <= m
    ensures Delay(b, rate) <= Delay(m, rate)
  {
    var x, y := b * 8000000, m * 8000000;
    if x / rate > y / rate {
      MulMonotone(y / rate + 1, x / rate, rate);
      assert false;
    }
  }

  lemma MulMonotone(a: nat, b: nat, r: nat)
    requires a <= b
    ensures a * r <= b * r
  {
  }

  /** timestamp_lessthaneq. */
  predicate TsLe(q: Queues, a: nat, b: nat)
    requires q.tsVirtual < 2 * MID && a < 2 * MID && b < 2 * MID
  {
    RelTime(q.tsVirtual, a, MID) <= RelTime(q.tsVirtual, b, MID)
  }

  predicate Shape(q: Queues, n: nat) {
    && |q.next| == LEVELS && |q.head| == LEVELS
    && (forall l :: 0 <= l < LEVELS ==> |q.next[l]| == n)
    && |q.nextTs| == n && |q.rate| == n && |q.avail| == n && |q.maxChunk| == n
    && |q.inSkip| == n && |q.inNolimit| == n
    && q.tsVirtual < 2 * MID && q.tsReal < 2 * MID
    && (forall i :: 0 <= i < n ==> q.nextTs[i] < 2 * MID)
    && (forall i :: 0 <= i < n ==> q.rate[i] > 0 ==> Delay(q.maxChunk[i], q.rate[i]) < MID)
  }

  /** Each level is the chain of the queues of at least that height, in time order; level 0 holds
      exactly the queues flagged INSKIPLIST. */
  ghost predicate Linked(q: Queues, g: Shadow, n: nat)
    requires Shape(q, n)
  {
    && |g.height| == n && |g.due| == n
    && Distinct(g.order) && Sorted(g.order, g.due)
    && (forall i :: 0 <= i < n ==> (q.inSkip[i] <==> i in g.order))
    && (forall l :: 0 <= l < LEVELS ==> Chain(q.next[l], q.head[l], Level(g.order, g.height, l)))
  }

  /** Stored timestamps are the due times; virtual time has passed none of them, and they lie
      within half the timestamp range ahead. */
  ghost predicate Timed(q: Queues, g: Shadow, n: nat)
    requires Shape(q, n) && |g.due| == n
  {
    && q.tsVirtual == Stamp(g.vt, MID) && q.tsReal == Stamp(g.rt, MID)
    && (forall i :: 0 <= i < n && i in g.order ==>
         g.vt <= g.due[i] < g.vt + MID && q.nextTs[i] == Stamp(g.due[i], MID))
  }

  ghost predicate Nolimit(q: Queues, g: Shadow, n: nat)
    requires Shape(q, n)
  {
    && Distinct(g.nolimit)
    && Chain(q.next[0], q.nolimitHead, g.nolimit) && q.nolimitTail == Last(g.nolimit)
    && (forall i :: 0 <= i < n ==> (q.inNolimit[i] <==> i in g.nolimit))
    && (forall i :: 0 <= i < n ==> !(q.inSkip[i] && q.inNolimit[i]))
  }

  /** A queue with bytes to send is in a list that will be polled. */
  predicate NoneLost(q: Queues, n: nat)
    requires Shape(q, n)
  {
    forall i :: 0 <= i < n ==> q.avail[i] > 0 ==> q.inSkip[i] || q.inNolimit[i]
  }

  /** No queue of the skip list has run out of bytes. */
  predicate Busy(q: Queues, n: nat) {
    Shape(q, n) && forall i :: 0 <= i < n ==> q.inSkip[i] ==> q.avail[i] > 0
  }

  /** The latest event about queue i. */
  function LastEvent(log: seq<Event>, i: nat): int {
    if |log| == 0 then -1
    else if log[|log| - 1].idx == i then |log| - 1
    else LastEvent(log[..|log| - 1], i)
  }

  lemma {:induction false} LastEventIs(log: seq<Event>, i: nat)
    ensures var k := LastEvent(log, i);
      && -1 <= k < |log|
      && (k >= 0 ==> log[k].idx == i)
      && (forall j :: k < j < |log| ==> log[j].idx != i)
  {
    if |log| > 0 && log[|log| - 1].idx != i {
      LastEventIs(log[..|log| - 1], i);
    }
  }

  /** Entries i and j are firings of the same queue with nothing about that queue in between. */
  ghost predicate Consecutive(log: seq<Event>, i: nat, j: nat) {
    && i < j < |log| && log[i].Fired? && log[j].Fired? && log[i].idx == log[j].idx
    && (forall k :: i < k < j ==> log[k].idx != log[i].idx)
  }

  /** Consecutive firings of a queue whose rate and chunk size did not change in between are as far apart in
      virtual time as the first one's bytes take at that rate, to the nanosecond. */
  ghost predicate Paced(log: seq<Event>) {
    forall i: nat, j: nat :: Consecutive(log, i, j) && log[j].rate > 0
      ==> Spaced(log[i].bytes, log[j].rate, log[j].vt - log[i].vt)
  }

  /** Queues fire in order of virtual time, none in the future. */
  ghost predicate Chronological(log: seq<Event>, vt: int) {
    && (forall i :: 0 <= i < |log| && log[i].Fired? ==> log[i].vt <= vt)
    && (forall i, j :: 0 <= i < j < |log| && log[i].Fired? && log[j].Fired? ==> log[i].vt <= log[j].vt)
  }

  /** A queue that fired last at time v with b bytes, at a positive rate that has not changed since:
      it is not due before v plus the time those bytes take. */
  ghost predicate Pacing(q: Queues, g: Shadow, n: nat, i: nat)
    requires Shape(q, n) && |g.due| == n && i < n
  {
    var k := LastEvent(g.log, i);
    0 <= k < |g.log| && g.log[k].Fired? ==>
      var f := g.log[k];
      && f.rate == q.rate[i] && f.vt <= g.vt && f.bytes <= q.maxChunk[i]
      && (f.rate > 0 ==>
        && !q.inNolimit[i]
        && g.due[i] >= f.vt + Delay(f.bytes, f.rate)
        && (!q.inSkip[i] ==> q.nextTs[i] == Stamp(g.due[i], MID)
                             && g.due[i] <= g.vt + Delay(q.maxChunk[i], f.rate)))
  }

  ghost predicate PaceInv(q: Queues, g: Shadow, n: nat)
    requires Shape(q, n) && |g.due| == n
  {
    Paced(g.log) && Chronological(g.log, g.vt) && forall i :: 0 <= i < n ==> Pacing(q, g, n, i)
  }

  ghost predicate Core(q: Queues, g: Shadow, n: nat) {
    Shape(q, n) && Linked(q, g, n) && Timed(q, g, n) && Nolimit(q, g, n) && PaceInv(q, g, n)
  }

  ghost predicate Inv(q: Queues, g: Shadow, n: nat) {
    Core(q, g, n) && NoneLost(q, n)
  }

  /** Bytes queued over all flows. */
  function Sum(xs: seq<nat>): nat {
    if |xs| == 0 then 0 else xs[0] + Sum(xs[1..])
  }

  lemma {:induction false} SumUpdate(xs: seq<nat>, i: nat, v: nat)
    requires i < |xs|
    ensures Sum(xs[i := v]) == Sum(xs) - xs[i] + v
    ensures xs[i] <= Sum(xs)
  {
    if i > 0 {
      SumUpdate(xs[1..], i - 1, v);
      assert xs[i := v][1..] == xs[1..][i - 1 := v];
    } else {
      assert xs[0 := v][1..] == xs[1..];
    }
  }

  lemma SumPositive(xs: seq<nat>, i: nat)
    requires i < |xs| && xs[i] > 0
    ensures Sum(xs) > 0
  {
    SumUpdate(xs, i, 0);
  }

  lemma {:induction false} SumZero(xs: seq<nat>)
    requires forall i :: 0 <= i < |xs| ==> xs[i] == 0
    ensures Sum(xs) == 0
  {
    if |xs| > 0 {
      SumZero(xs[1..]);
    }
  }
}
