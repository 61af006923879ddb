/** Operations of the per-VM flow queues (tas/fast/qman.c). */
module FlowQman {
  import opened Arith
  import opened Timestamps
  import opened IndexList
  import opened SkipLevels
  import opened FlowQueues

  /** Where a queue due at d goes: behind every listed queue due no later. */
  ghost function Split(g: Shadow, d: int): nat {
    CountLe(g.order, g.due, d)
  }

  /** The last queue at level l due no later than d, if any. */
  ghost function Pred(g: Shadow, d: int, l: nat): int
    requires Split(g, d) <= |g.order|
  {
    Last(Level(g.order[..Split(g, d)], g.height, l))
  }

  /** Level l falls into the part due no later than d and the part due later. */
  lemma LevelSplit(g: Shadow, d: int, l: nat)
    requires Distinct(g.order) && Sorted(g.order, g.due) && |g.height| == |g.due|
    ensures Split(g, d) <= |g.order|
    ensures var a, b := Level(g.order[..Split(g, d)], g.height, l), Level(g.order[Split(g, d)..], g.height, l);
      && Level(g.order, g.height, l) == a + b
      && (forall k :: 0 <= k < |a| ==> a[k] in g.order && a[k] < |g.due| && g.due[a[k]] <= d)
      && (forall k :: 0 <= k < |b| ==> b[k] in g.order && b[k] < |g.due| && g.due[b[k]] > d)
      && (forall x :: x in a <==> x in g.order[..Split(g, d)] && g.height[x] >= l)
  {
    hide Level, CountLe;
    var c := Split(g, d);
    CountLeSplits(g.order, g.due, d);
    var front, back := g.order[..c], g.order[c..];
    assert g.order == front + back;
    LevelConcat(front, back, g.height, l);
    LevelFront(g, d, l);
    LevelBack(g, d, l);
  }

  lemma LevelFront(g: Shadow, d: int, l: nat)
    requires Distinct(g.order) && Sorted(g.order, g.due) && |g.height| == |g.due|
    ensures Split(g, d) <= |g.order|
    ensures var a := Level(g.order[..Split(g, d)], g.height, l);
      && (forall k :: 0 <= k < |a| ==> a[k] in g.order && a[k] < |g.due| && g.due[a[k]] <= d)
      && (forall x :: x in a <==> x in g.order[..Split(g, d)] && g.height[x] >= l)
  {
    hide Level, CountLe, Distinct;
    var c := Split(g, d);
    CountLeSplits(g.order, g.due, d);
    LevelMembers(g.order[..c], g.height, l);
    var a := Level(g.order[..c], g.height, l);
    forall k | 0 <= k < |a|
      ensures a[k] in g.order && a[k] < |g.due| && g.due[a[k]] <= d
    {
      assert a[k] in a;
      var j :| 0 <= j < c && g.order[..c][j] == a[k];
      assert g.order[j] == a[k];
    }
  }

  lemma LevelBack(g: Shadow, d: int, l: nat)
    requires Distinct(g.order) && Sorted(g.order, g.due) && |g.height| == |g.due|
    ensures Split(g, d) <= |g.order|
    ensures var b := Level(g.order[Split(g, d)..], g.height, l);
      forall k :: 0 <= k < |b| ==> b[k] in g.order && b[k] < |g.due| && g.due[b[k]] > d
  {
    hide Level, CountLe, Distinct;
    var c := Split(g, d);
    CountLeSplits(g.order, g.due, d);
    LevelMembers(g.order[c..], g.height, l);
    var b := Level(g.order[c..], g.height, l);
    forall k | 0 <= k < |b|
      ensures b[k] in g.order && b[k] < |g.due| && g.due[b[k]] > d
    {
      assert b[k] in b;
      var j :| 0 <= j < |g.order| - c && g.order[c..][j] == b[k];
      assert g.order[c + j] == b[k];
    }
  }

  /** Real time since the last poll, as the 32-bit subtraction sees it. */
  function Gap(g: Shadow, now: int): nat {
    Stamp(now - g.rt, MID)
  }

  /** A gap the wrapping comparison takes for a step back in time. */
  predicate Late(q: Queues, g: Shadow, now: int) {
    Gap(g, now) > MID || (Gap(g, now) == MID && q.tsVirtual <= MID)
  }

  /** A virtual time the wrapping comparison takes for what it is. */
  predicate Reach(q: Queues, g: Shadow, v: int) {
    g.vt <= v && (v < g.vt + MID || (v == g.vt + MID && q.tsVirtual > MID))
  }

  lemma LateIff(q: Queues, g: Shadow, now: int)
    ensures Late(q, g, now) <==> !Reach(q, g, g.vt + Gap(g, now))
    ensures g.rt <= now ==> Gap(g, now) <= now - g.rt
    ensures g.rt == now ==> Gap(g, now) == 0
  {
    hide Stamp;
    StampAtMost(now - g.rt);
  }

  lemma {:induction false} StampAtMost(t: int)
    ensures 0 <= t ==> Stamp(t, MID) <= t
    ensures t == 0 ==> Stamp(t, MID) == 0
    decreases t
  {
    if t >= 2 * MID {
      StampAtMost(t - 2 * MID);
    }
  }

  /** Comparing stored timestamps is comparing due times. */
  lemma TsLeIsDueLe(q: Queues, g: Shadow, n: nat, i: nat, d: int)
    requires Core(q, g, n) && i < n && i in g.order && Reach(q, g, d)
    ensures TsLe(q, q.nextTs[i], Stamp(d, MID)) <==> g.due[i] <= d
  {
    CoreFacts(q, g, n);
    hide Stamp, RelTime, Linked, Nolimit, PaceInv;
    RelTimeAbsolute(g.vt, g.due[i], MID);
    if d < g.vt + MID {
      RelTimeAbsolute(g.vt, d, MID);
    } else {
      HalfAhead(g.vt);
    }
  }

  lemma HalfAhead(t: int)
    requires Stamp(t, MID) > MID
    ensures RelTime(Stamp(t, MID), Stamp(t + MID, MID), MID) == MID
  {
    hide Stamp;
    StampNear(t, MID, MID);
  }

  /** The most virtual time can reach lies beyond the first queue's due time, seen through the wrapping
      comparison, exactly when it does or the gap is late. */
  predicate Beyond(q: Queues, g: Shadow, n: nat, now: int) {
    && |g.order| > 0 && g.order[0] < |g.due| == n
    && (Late(q, g, now) || g.due[g.order[0]] > g.vt + Gap(g, now))
  }

  lemma BeyondIff(q: Queues, g: Shadow, n: nat, now: int)
    requires Core(q, g, n) && |g.order| > 0
    ensures 0 <= q.head[0] < n && q.head[0] == g.order[0]
    ensures !TsLe(q, q.nextTs[q.head[0]], Stamp(g.vt + Gap(g, now), MID)) <==> Beyond(q, g, n, now)
  {
    CoreFacts(q, g, n);
    hide Stamp, RelTime, Linked, Nolimit, PaceInv;
    SkipHead(q, g, n);
    LateIff(q, g, now);
    var i, e := q.head[0], Gap(g, now);
    if Late(q, g, now) {
      assert Stamp(e, MID) == e by { StampSmall(e); }
      PastIffRecent(g.vt, e, MID);
      RelTimeAbsolute(g.vt, g.due[i], MID);
    } else {
      TsLeIsDueLe(q, g, n, i, g.vt + e);
    }
  }

  lemma StampSmall(e: nat)
    requires e < 2 * MID
    ensures Stamp(e, MID) == e
  {
  }

  /** Position p of level l: the chain leads to the next one, and the timestamp test tells the part due no later. */
  lemma LevelTest(q: Queues, g: Shadow, n: nat, ts: nat, d: int, l: nat, p: nat)
    requires Core(q, g, n) && g.vt <= d < g.vt + MID && ts == Stamp(d, MID) && l < LEVELS && Split(g, d) <= |g.order|
    requires p < |Level(g.order, g.height, l)|
    ensures var i := Level(g.order, g.height, l)[p];
      && i < |q.next[l]| && i < |q.nextTs| && q.next[l][i] == At(Level(g.order, g.height, l), p + 1)
      && q.tsVirtual < 2 * MID && q.nextTs[i] < 2 * MID
      && (TsLe(q, q.nextTs[i], ts) <==> p < |Level(g.order[..Split(g, d)], g.height, l)|)
  {
    hide Stamp, TsLe, PaceInv, Nolimit, Level, CountLe, Delay;
    LevelSplit(g, d, l);
    assert Chain(q.next[l], q.head[l], Level(g.order, g.height, l));
    TsLeIsDueLe(q, g, n, Level(g.order, g.height, l)[p], d);
  }

  lemma LevelHead(q: Queues, g: Shadow, n: nat, d: int, l: nat)
    requires Core(q, g, n) && l < LEVELS
    ensures |q.next| == |q.head| == LEVELS && q.head[l] == At(Level(g.order, g.height, l), 0) && Split(g, d) <= |g.order|
    ensures Level(g.order[..Split(g, d)], g.height, l) <= Level(g.order, g.height, l)
  {
    hide Stamp, PaceInv, Nolimit, Level, CountLe, Delay;
    LevelSplit(g, d, l);
    assert Chain(q.next[l], q.head[l], Level(g.order, g.height, l));
  }

  /** One level of the predecessor search: follow the chain while queues are due no later. */
  method ScanLevel(q: Queues, ghost g: Shadow, ghost n: nat, ts: nat, ghost d: int, l: nat, start: int)
    returns (pred: int)
    requires Core(q, g, n) && g.vt <= d < g.vt + MID && ts == Stamp(d, MID) && l < LEVELS
    requires Split(g, d) <= |g.order|
    requires start == NONE || start == Pred(g, d, l + 1)
    ensures pred == Pred(g, d, l)
  {
    hide Core, Split, Stamp, TsLe, Level;
    ghost var a := Level(g.order[..Split(g, d)], g.height, l);
    ghost var list := Level(g.order, g.height, l);
    LevelHead(q, g, n, d, l);
    pred := start;
    ghost var p := 0;
    if pred != NONE {
      p := Climb(q, g, n, d, l, pred);
    }
    var idx := if pred != NONE then pred else q.head[l];
    if p < |list| {
      LevelTest(q, g, n, ts, d, l, p);
    }
    while idx != NONE && TsLe(q, q.nextTs[idx], ts)
      invariant 0 <= p <= |a| && idx == At(list, p)
      invariant (p == 0 && pred == NONE) || (p > 0 && pred == list[p - 1]) || (p < |a| && pred == idx)
      invariant p < |list| ==> idx < |q.nextTs| && q.tsVirtual < 2 * MID && q.nextTs[idx] < 2 * MID
      invariant p < |list| ==> idx < |q.next[l]| && q.next[l][idx] == At(list, p + 1)
      invariant p < |list| ==> (TsLe(q, q.nextTs[idx], ts) <==> p < |a|)
      decreases |list| - p
    {
      pred := idx;
      idx := q.next[l][idx];
      p := p + 1;
      if p < |list| {
        LevelTest(q, g, n, ts, d, l, p);
      }
    }
  }

  /** The top-down predecessor search of flow_queue_activate_skiplist. */
  method FindPredecessors(q: Queues, ghost g: Shadow, ghost n: nat, ts: nat, ghost d: int) returns (preds: seq<int>)
    requires Core(q, g, n) && g.vt <= d < g.vt + MID && ts == Stamp(d, MID)
    ensures Split(g, d) <= |g.order|
    ensures |preds| == LEVELS
    ensures forall l :: 0 <= l < LEVELS ==> preds[l] == Pred(g, d, l)
  {
    assert Split(g, d) <= |g.order| by { LevelSplit(g, d, 0); }
    hide Core, Split, Pred, Stamp;
    preds := [NONE, NONE, NONE, NONE];
    var pred := NONE;
    var l := LEVELS;
    while l > 0
      invariant 0 <= l <= LEVELS && |preds| == LEVELS
      invariant forall j :: l <= j < LEVELS ==> preds[j] == Pred(g, d, j)
      invariant pred == if l == LEVELS then NONE else Pred(g, d, l)
    {
      l := l - 1;
      pred := ScanLevel(q, g, n, ts, d, l, pred);
      preds := preds[l := pred];
    }
  }

  /** A predecessor found one level up is also on this level, among those due no later. */
  lemma Climb(q: Queues, g: Shadow, n: nat, d: int, l: nat, pred: int) returns (p: nat)
    requires Core(q, g, n) && Split(g, d) <= |g.order| && pred != NONE && pred == Pred(g, d, l + 1)
    ensures p < |Level(g.order[..Split(g, d)], g.height, l)| && Level(g.order[..Split(g, d)], g.height, l)[p] == pred
  {
    p := ClimbLevel(g, d, l, pred);
  }

  lemma ClimbLevel(g: Shadow, d: int, l: nat, pred: int) returns (p: nat)
    requires Distinct(g.order) && Sorted(g.order, g.due) && |g.height| == |g.due|
    requires Split(g, d) <= |g.order| && pred == Pred(g, d, l + 1) != NONE
    ensures p < |Level(g.order[..Split(g, d)], g.height, l)|
    ensures Level(g.order[..Split(g, d)], g.height, l)[p] == pred
    ensures p < |Level(g.order, g.height, l)| && Level(g.order, g.height, l)[p] == pred
  {
    LevelSplit(g, d, l);
    LevelSplit(g, d, l + 1);
    var up, a := Level(g.order[..Split(g, d)], g.height, l + 1), Level(g.order[..Split(g, d)], g.height, l);
    assert up[|up| - 1] in up;
    assert pred in a;
    p :| 0 <= p < |a| && a[p] == pred;
  }

  /** The "reasonable" next timestamp of a queue being activated: not in the past, and not later than
      if it had just sent a full chunk. */
  function ClampedTs(q: Queues, i: nat): (ts: nat)
    requires i < |q.nextTs| == |q.rate| == |q.maxChunk| && q.rate[i] > 0 && q.tsVirtual < 2 * MID && q.nextTs[i] < 2 * MID
    ensures ts < 2 * MID
  {
    var maxTs := Stamp(q.tsVirtual + Delay(q.maxChunk[i], q.rate[i]), MID);
    if TsLe(q, q.nextTs[i], q.tsVirtual) then q.tsVirtual
    else if !TsLe(q, q.nextTs[i], maxTs) then maxTs
    else q.nextTs[i]
  }

  /** The clamped timestamp stands for a due time within one full chunk from now, and never earlier
      than the time the stored timestamp stood for. */
  lemma ClampedDue(q: Queues, g: Shadow, n: nat, i: nat) returns (d: int)
    requires Shape(q, n) && |g.due| == n && q.tsVirtual == Stamp(g.vt, MID)
    requires i < n && q.rate[i] > 0
    ensures g.vt <= d <= g.vt + Delay(q.maxChunk[i], q.rate[i]) && d < g.vt + MID
    ensures ClampedTs(q, i) == Stamp(d, MID)
    ensures q.nextTs[i] == Stamp(g.due[i], MID) && g.due[i] <= g.vt + Delay(q.maxChunk[i], q.rate[i]) ==> d >= g.due[i]
    ensures q.nextTs[i] == q.tsVirtual ==> d == g.vt
    ensures q.nextTs[i] == Stamp(g.due[i], MID) && g.vt - MID < g.due[i] < g.vt + MID ==>
      d == Max(g.vt, Min(g.due[i], g.vt + Delay(q.maxChunk[i], q.rate[i])))
  {
    hide Stamp, Delay;
    var delay := Delay(q.maxChunk[i], q.rate[i]);
    var r := RelTime(q.tsVirtual, q.nextTs[i], MID);
    d := g.vt + Max(0, Min(r, delay));
    StampAbsorb(g.vt, delay, MID);
    RelTimeAbsolute(g.vt, g.vt, MID);
    RelTimeAbsolute(g.vt, g.vt + delay, MID);
    StampOfRel(g.vt, q.nextTs[i], MID);
    if q.nextTs[i] == Stamp(g.due[i], MID) && g.vt - MID < g.due[i] < g.vt + MID {
      RelTimeAbsolute(g.vt, g.due[i], MID);
    }
  }

  /** Why one chunk must take less than half the timestamp range: a queue whose stored time is still ahead is
      put into the past exactly if the time of a chunk, modulo the range, is more than half of it (half itself
      is judged by where the virtual timestamp lies). */
  lemma ClampPastIff(q: Queues, i: nat)
    requires i < |q.nextTs| == |q.rate| == |q.maxChunk| && q.rate[i] > 0 && q.tsVirtual < 2 * MID && q.nextTs[i] < 2 * MID
    ensures var e := Stamp(Delay(q.maxChunk[i], q.rate[i]), MID);
      RelTime(q.tsVirtual, ClampedTs(q, i), MID) < 0
      <==> RelTime(q.tsVirtual, q.nextTs[i], MID) > 0 && (e > MID || (e == MID && q.tsVirtual <= MID))
  {
    hide Stamp, Delay;
    assert Stamp(q.tsVirtual, MID) == q.tsVirtual by { StampSmall(q.tsVirtual); }
    PastIffRecent(q.tsVirtual, Delay(q.maxChunk[i], q.rate[i]), MID);
  }

  /** One kilobit per second and chunks of 1400 bytes are such a case. */
  lemma SlowestRate()
    ensures Stamp(Delay(1400, 1), MID) == 2610065408 > MID
  {
    var d := Delay(1400, 1);
    assert d == 2 * (2 * MID) + 2610065408;
    StampShift(2 * MID + 2610065408, MID);
    StampShift(2610065408, MID);
  }

  /** Half the range and one nanosecond between two polls is too long while a queue is listed; twice that is
      not, it passes for one nanosecond. */
  lemma GapTooLong(q: Queues, g: Shadow, n: nat)
    requires Core(q, g, n) && |g.order| > 0
    ensures Late(q, g, g.rt + MID + 1) && g.order[0] < |g.due| && g.due[g.order[0]] < g.vt + Gap(g, g.rt + MID + 1)
    ensures !Late(q, g, g.rt + 2 * MID + 1) && Gap(g, g.rt + 2 * MID + 1) == 1
  {
    hide Core;
    assert Stamp(MID + 1, MID) == MID + 1 by { StampSmall(MID + 1); }
    assert Stamp(2 * MID + 1, MID) == Stamp(1, MID) == 1 by { StampShift(1, MID); StampSmall(1); }
    LatePasses(q, g, n, g.rt + MID + 1);
  }

  /** One level of the insertion in flow_queue_activate_skiplist. */
  predicate LinkedAt(q: Queues, q': Queues, l: nat, i: nat, level: nat, pred: int)
    requires l < |q.next| == |q'.next| == |q.head| == |q'.head|
    requires i < |q.next[l]| && -1 <= pred < |q.next[l]|
  {
    if l > level then q'.next[l] == q.next[l][i := NONE] && q'.head[l] == q.head[l]
    else if pred != NONE then
      q'.next[l] == q.next[l][i := q.next[l][pred]][pred := i] && q'.head[l] == q.head[l]
    else q'.next[l] == q.next[l][i := q.head[l]] && q'.head[l] == i
  }

  lemma PredInOrder(g: Shadow, d: int, l: nat)
    requires Distinct(g.order) && Sorted(g.order, g.due) && |g.height| == |g.due|
    ensures Split(g, d) <= |g.order|
    ensures Pred(g, d, l) == NONE || (0 <= Pred(g, d, l) < |g.due| && Pred(g, d, l) in g.order)
  {
    LevelSplit(g, d, l);
  }

  /** What enqueueing does to one level. */
  lemma LevelEnqueue(g: Shadow, i: nat, level: nat, d: int, l: nat)
    requires Distinct(g.order) && Sorted(g.order, g.due) && |g.height| == |g.due|
    requires i < |g.due| && i !in g.order && Split(g, d) <= |g.order|
    ensures var list, a := Level(g.order, g.height, l), Level(g.order[..Split(g, d)], g.height, l);
      && |a| <= |list| && (|a| > 0 ==> list[|a| - 1] == a[|a| - 1])
      && Level(Enqueue(g.order, g.due, i, d), g.height[i := level], l)
         == if level >= l then Insert(list, |a|, i) else list
  {
    hide CountLe, Level;
    var c := Split(g, d);
    var front, back := g.order[..c], g.order[c..];
    LevelSplit(g, d, l);
    LevelPlace(front, back, i, g.height, level, l);
    InsertConcat(Level(front, g.height, l), Level(back, g.height, l), i);
  }

  /** After the insertion every level is again a chain of the right queues. */
  lemma LevelInserted(q: Queues, g: Shadow, n: nat, q': Queues, i: nat, level: nat, d: int, l: nat)
    requires Shape(q, n) && Linked(q, g, n) && i < n && i !in g.order && l < LEVELS
    requires |q'.next| == |q'.head| == LEVELS
    requires Split(g, d) <= |g.order| && -1 <= Pred(g, d, l) < n
    requires LinkedAt(q, q', l, i, level, Pred(g, d, l))
    ensures Chain(q'.next[l], q'.head[l], Level(Enqueue(g.order, g.due, i, d), g.height[i := level], l))
  {
    hide CountLe, Level, Insert, Sorted;
    LevelEnqueue(g, i, level, d, l);
    LevelDistinct(g.order, g.height, l);
    LevelMembers(g.order, g.height, l);
    var list, a := Level(g.order, g.height, l), Level(g.order[..Split(g, d)], g.height, l);
    if l > level {
      ChainFrame(q.next[l], q.head[l], list, q'.next[l]);
    } else {
      ChainInsert(q.next[l], q.head[l], list, |a|, i, q'.next[l], q'.head[l]);
    }
  }

  /** The state after flow_queue_activate_skiplist of queue i, level by level. */
  ghost predicate SkipInserted(q: Queues, g: Shadow, n: nat, q': Queues, i: nat, level: nat, d: int)
    requires Shape(q, n) && i < n && Split(g, d) <= |g.order|
  {
    && |q'.next| == |q'.head| == LEVELS
    && (forall l :: 0 <= l < LEVELS ==> -1 <= Pred(g, d, l) < n)
    && (forall l :: 0 <= l < LEVELS ==> LinkedAt(q, q', l, i, level, Pred(g, d, l)))
    && q' == q.(next := q'.next, head := q'.head, nextTs := q.nextTs[i := Stamp(d, MID)], inSkip := q.inSkip[i := true])
  }

  lemma SkipInsertedAt(q: Queues, g: Shadow, n: nat, q': Queues, i: nat, level: nat, d: int, preds: seq<int>)
    requires Shape(q, n) && i < n && Split(g, d) <= |g.order| && |preds| == |q'.next| == |q'.head| == LEVELS
    requires forall l :: 0 <= l < LEVELS ==> -1 <= preds[l] == Pred(g, d, l) < n
    requires var q1 := q.(nextTs := q.nextTs[i := Stamp(d, MID)]);
      forall l :: 0 <= l < LEVELS ==> LinkedAt(q1, q'.(inSkip := q.inSkip), l, i, level, preds[l])
    requires q' == q.(next := q'.next, head := q'.head, nextTs := q.nextTs[i := Stamp(d, MID)], inSkip := q.inSkip[i := true])
    ensures SkipInserted(q, g, n, q', i, level, d)
  {
    hide Stamp, Delay, Split, Pred;
    var q1, q2 := q.(nextTs := q.nextTs[i := Stamp(d, MID)]), q'.(inSkip := q.inSkip);
    forall l | 0 <= l < LEVELS
      ensures LinkedAt(q, q', l, i, level, Pred(g, d, l))
    {
      assert LinkedAt(q1, q2, l, i, level, preds[l]);
    }
  }

  ghost function Inserted(g: Shadow, i: nat, level: nat, d: int): Shadow
    requires i < |g.height| && i < |g.due| && CountLe(g.order, g.due, d) <= |g.order|
  {
    g.(order := Enqueue(g.order, g.due, i, d), height := g.height[i := level], due := g.due[i := d])
  }

  lemma EnteredAt(q: Queues, g: Shadow, n: nat, i: nat, level: nat, d: int)
    requires Shape(q, n) && |g.due| == |g.height| == n && i < n && q.rate[i] > 0 && CountLe(g.order, g.due, d) <= |g.order|
    requires q.nextTs[i] == Stamp(g.due[i], MID) && g.due[i] <= g.vt + Delay(q.maxChunk[i], q.rate[i]) ==> d >= g.due[i]
    requires q.nextTs[i] == q.tsVirtual ==> d == g.vt
    requires q.nextTs[i] == Stamp(g.due[i], MID) && g.vt - MID < g.due[i] < g.vt + MID ==>
      d == Max(g.vt, Min(g.due[i], g.vt + Delay(q.maxChunk[i], q.rate[i])))
    ensures Entered(q, g, i, Inserted(g, i, level, d))
  {
    hide Stamp, Delay, Insert, CountLe, Shape;
    InsertMembers(g.order, CountLe(g.order, g.due, d), i);
    InsertFirst(i);
    SameLengths(q, n);
  }

  lemma SameLengths(q: Queues, n: nat)
    requires Shape(q, n)
    ensures |q.rate| == |q.nextTs| == |q.maxChunk| == n
  {
  }

  lemma InsertFirst(i: nat)
    ensures Insert([], 0, i) == [i]
  {
  }

  lemma InsertLinked(q: Queues, g: Shadow, n: nat, q': Queues, i: nat, level: nat, d: int)
    requires Core(q, g, n) && i < n && !q.inSkip[i] && !q.inNolimit[i]
    requires Split(g, d) <= |g.order| && SkipInserted(q, g, n, q', i, level, d)
    ensures Shape(q', n) && Linked(q', Inserted(g, i, level, d), n)
  {
    hide CountLe, Level, Insert, Stamp, Delay, Pacing;
    EnqueueSorted(g.order, g.due, i, d);
    forall l | 0 <= l < LEVELS
      ensures |q'.next[l]| == n
      ensures Chain(q'.next[l], q'.head[l], Level(Enqueue(g.order, g.due, i, d), g.height[i := level], l))
    {
      LevelInserted(q, g, n, q', i, level, d, l);
    }
  }

  lemma InsertNolimit(q: Queues, g: Shadow, n: nat, q': Queues, i: nat, level: nat, d: int)
    requires Core(q, g, n) && i < n && !q.inSkip[i] && !q.inNolimit[i]
    requires Split(g, d) <= |g.order| && SkipInserted(q, g, n, q', i, level, d)
    requires Shape(q', n)
    ensures Nolimit(q', Inserted(g, i, level, d), n)
  {
    hide CountLe, Level, Insert, Stamp, Delay, Pacing;
    PredInOrder(g, d, 0);
    ChainFrame(q.next[0], q.nolimitHead, g.nolimit, q'.next[0]);
  }

  lemma InsertTimed(q: Queues, g: Shadow, n: nat, q': Queues, i: nat, level: nat, d: int)
    requires Core(q, g, n) && i < n && !q.inSkip[i] && !q.inNolimit[i]
    requires Split(g, d) <= |g.order| && SkipInserted(q, g, n, q', i, level, d)
    requires Shape(q', n) && g.vt <= d < g.vt + MID && q.rate[i] > 0
    requires q.nextTs[i] == Stamp(g.due[i], MID) && g.due[i] <= g.vt + Delay(q.maxChunk[i], q.rate[i]) ==> d >= g.due[i]
    ensures Timed(q', Inserted(g, i, level, d), n) && PaceInv(q', Inserted(g, i, level, d), n)
  {
    hide CountLe, Level, Insert, Stamp, Delay, Paced, LastEvent;
    EnqueueSorted(g.order, g.due, i, d);
    var g' := Inserted(g, i, level, d);
    forall j | 0 <= j < n
      ensures Pacing(q', g', n, j)
    {
      assert Pacing(q, g, n, j);
    }
  }

  /** Queue i enters the skip list: at once if it is due, when it is due if that is no later than a full chunk takes,
      and after a full chunk otherwise; never before it was due. */
  ghost predicate Entered(q: Queues, g: Shadow, i: nat, g': Shadow) {
    && i < |q.rate| == |q.nextTs| == |q.maxChunk| == |g.due| == |g'.due| && q.rate[i] > 0
    && g'.nolimit == g.nolimit && (g.order == [] ==> g'.order == [i])
    && (forall j :: j in g'.order <==> j in g.order || j == i)
    && (forall j :: 0 <= j < |g.due| && j != i ==> g'.due[j] == g.due[j])
    && (q.nextTs[i] == q.tsVirtual ==> g'.due[i] == g.vt)
    && (q.nextTs[i] == Stamp(g.due[i], MID) && g.due[i] <= g.vt + Delay(q.maxChunk[i], q.rate[i]) ==> g'.due[i] >= g.due[i])
    && (q.nextTs[i] == Stamp(g.due[i], MID) && g.vt - MID < g.due[i] < g.vt + MID ==>
         g'.due[i] == Max(g.vt, Min(g.due[i], g.vt + Delay(q.maxChunk[i], q.rate[i]))))
  }

  function EmptyQueues(n: nat, now: nat): Queues {
    var none, off := seq(n, _ => 0), seq(n, _ => false);
    Queues([none, none, none, none], [NONE, NONE, NONE, NONE], none, none, none, none, off, off,
           NONE, NONE, false, 0, Stamp(now, MID))
  }

  ghost function EmptyShadow(n: nat, now: nat): Shadow {
    Shadow([], seq(n, _ => 0), seq(n, _ => 0), [], 0, now, [])
  }

  lemma EmptyInv(n: nat, now: nat)
    ensures Inv(EmptyQueues(n, now), EmptyShadow(n, now), n) && Busy(EmptyQueues(n, now), n)
  {
    var q, g := EmptyQueues(n, now), EmptyShadow(n, now);
    assert Stamp(0, MID) == 0 by { StampSmall(0); }
    hide Stamp, Delay;
    assert Shape(q, n);
    assert Linked(q, g, n) by {
      hide Pacing;
      forall l | 0 <= l < LEVELS
        ensures Chain(q.next[l], q.head[l], Level(g.order, g.height, l))
      {
        assert Level([], g.height, l) == [];
      }
    }
    assert forall i :: 0 <= i < n ==> Pacing(q, g, n, i);
  }

  /** struct flow_qman: the flow queues of one VM. */
  class FlowQman {
    const n: nat
    var q: Queues
    ghost var g: Shadow

    /** flowcont_init and the VM part of vmcont_init: empty lists at virtual time 0. */
    constructor (n: nat, now: nat)
      ensures this.n == n && Valid() && Busy(q, n) && Sum(q.avail) == 0
      ensures q == EmptyQueues(n, now) && g == EmptyShadow(n, now)
    {
      hide Stamp, Inv, Busy;
      this.n := n;
      this.q := EmptyQueues(n, now);
      this.g := EmptyShadow(n, now);
      EmptyInv(n, now);
      SumZero(seq(n, _ => 0));
      new;
    }

    ghost predicate Valid()
      reads this
    {
      Inv(q, g, n)
    }

    ghost predicate Linkable(i: nat)
      reads this
    {
      Core(q, g, n) && i < n && !q.inSkip[i] && !q.inNolimit[i]
    }

    /** What activating a queue leaves alone. */
    twostate predicate OnlyLists()
      reads this
    {
      && q.rate == old(q.rate) && q.avail == old(q.avail) && q.maxChunk == old(q.maxChunk)
      && q.nolimitFirst == old(q.nolimitFirst) && q.tsVirtual == old(q.tsVirtual) && q.tsReal == old(q.tsReal)
      && g.vt == old(g.vt) && g.rt == old(g.rt) && g.log == old(g.log)
    }

    /** flow_queue_activate_nolimit. */
    method ActivateNolimit(i: nat)
      requires Linkable(i) && q.rate[i] == 0
      modifies this
      ensures Core(q, g, n) && OnlyLists()
      ensures g == old(g).(nolimit := old(g).nolimit + [i])
      ensures q.inSkip == old(q.inSkip) && q.inNolimit == old(q.inNolimit)[i := true]
    {
      ghost var q0 := q;
      var tail := q.nolimitTail;
      q := q.(inNolimit := q.inNolimit[i := true], next := q.next[0 := q.next[0][i := NONE]]);
      if tail == NONE {
        q := q.(nolimitHead := i, nolimitTail := i);
      } else {
        q := q.(next := q.next[0 := q.next[0][tail := i]], nolimitTail := i);
      }
      g := g.(nolimit := g.nolimit + [i]);
      NolimitAppended(q0, old(g), n, q, i);
    }

    /** flow_queue_activate_skiplist: the queue goes behind every queue due no later, at every level
        up to the one drawn for it. */
    method ActivateSkiplist(i: nat, level: nat)
      requires Linkable(i) && q.rate[i] > 0 && level < LEVELS
      modifies this
      ensures Core(q, g, n) && OnlyLists()
      ensures g.due == old(g.due)[i := g.due[i]] && |old(g.due)| == n
      ensures CountLe(old(g.order), old(g.due), g.due[i]) <= |old(g.order)|
      ensures g.order == Enqueue(old(g.order), old(g.due), i, g.due[i])
      ensures g.nolimit == old(g.nolimit) && Entered(old(q), old(g), i, g)
      ensures q.inSkip == old(q.inSkip)[i := true] && q.inNolimit == old(q.inNolimit)
    {
      hide Stamp, Delay, Pacing, Paced, Level, CountLe, Insert, TsLe, Entered, LinkedAt, Pred;
      ghost var q0, g0 := q, g;
      ghost var d := ClampedDue(q, g, n, i);
      var ts := ClampedTs(q, i);
      var preds := FindPredecessors(q, g, n, ts, d);
      PredsInRange(g, d, n);
      q := q.(nextTs := q.nextTs[i := ts]);
      LinkLevels(i, level, preds);
      q := q.(inSkip := q.inSkip[i := true]);
      g := Inserted(g, i, level, d);
      SkipInsertedAt(q0, g0, n, q, i, level, d, preds);
      InsertLinked(q0, g0, n, q, i, level, d);
      InsertNolimit(q0, g0, n, q, i, level, d);
      InsertTimed(q0, g0, n, q, i, level, d);
      EnteredAt(q0, g0, n, i, level, d);
    }

    /** The loop of flow_queue_activate_skiplist that links a queue in behind its predecessors. */
    method LinkLevels(i: nat, level: nat, preds: seq<int>)
      requires Shape(q, n) && i < n && |preds| == LEVELS && forall l :: 0 <= l < LEVELS ==> -1 <= preds[l] < n
      modifies this`q
      ensures |q.next| == |q.head| == LEVELS && q == old(q).(next := q.next, head := q.head)
      ensures forall l :: 0 <= l < LEVELS ==> LinkedAt(old(q), q, l, i, level, preds[l])
    {
      hide Delay;
      ghost var q0 := q;
      var l := LEVELS;
      while l > 0
        invariant 0 <= l <= LEVELS && |q.next| == |q.head| == LEVELS && q == q0.(next := q.next, head := q.head)
        invariant forall j :: 0 <= j < l ==> q.next[j] == q0.next[j] && q.head[j] == q0.head[j]
        invariant forall j :: l <= j < LEVELS ==> LinkedAt(q0, q, j, i, level, preds[j])
      {
        l := l - 1;
        var nx := q.next[l];
        if l > level {
          q := q.(next := q.next[l := nx[i := NONE]]);
        } else {
          var pred := preds[l];
          if pred != NONE {
            q := q.(next := q.next[l := nx[i := nx[pred]][pred := i]]);
          } else {
            q := q.(next := q.next[l := nx[i := q.head[l]]], head := q.head[l := i]);
          }
        }
      }
    }

    /** flow_queue_level: some level below the top; the source draws it at random. */
    method DrawLevel() returns (l: nat)
      ensures l < LEVELS
    {
      l :| l < LEVELS;
    }

    /** flow_queue_activate. */
    method Activate(i: nat)
      requires Linkable(i)
      modifies this
      ensures Core(q, g, n) && OnlyLists()
      ensures forall j :: 0 <= j < n && j != i ==> q.inSkip[j] == old(q.inSkip)[j] && q.inNolimit[j] == old(q.inNolimit)[j]
      ensures q.inSkip[i] || q.inNolimit[i]
      ensures |g.order| + |g.nolimit| == |old(g.order)| + |old(g.nolimit)| + 1 && |g.order| >= |old(g.order)|
      ensures if q.rate[i] == 0 then g == old(g).(nolimit := old(g).nolimit + [i]) else Entered(old(q), old(g), i, g)
    {
      hide Stamp, Delay, Pacing, Paced, Level, CountLe, TsLe, Entered;
      if q.rate[i] == 0 {
        ActivateNolimit(i);
      } else {
        var level := DrawLevel();
        ActivateSkiplist(i, level);
      }
    }

    /** flow_queue_fire: take up to one chunk off the queue and re-activate it if bytes remain. */
    method Fire(i: nat) returns (bytes: nat)
      requires Linkable(i) && NoneLostBut(q, n, i) && q.avail[i] > 0 && Ready(q, g, n, i)
      modifies this
      ensures Valid()
      ensures bytes == Min(old(q.avail)[i], q.maxChunk[i])
      ensures q.avail == old(q.avail)[i := old(q.avail)[i] - bytes]
      ensures q.rate == old(q.rate) && q.maxChunk == old(q.maxChunk) && q.nolimitFirst == old(q.nolimitFirst)
      ensures q.tsVirtual == old(q.tsVirtual) && q.tsReal == old(q.tsReal)
      ensures g.vt == old(g.vt) && g.rt == old(g.rt)
      ensures g.log == old(g.log) + [Fired(i, g.vt, bytes, q.rate[i])]
      ensures (old(Busy(q, n)) ==> Busy(q, n)) && |g.order| >= |old(g.order)|
      ensures q.rate[i] == 0 ==> g.order == old(g.order) && (g.nolimit == old(g.nolimit) || g.nolimit == old(g.nolimit) + [i])
      ensures q.avail[i] == 0 ==> g.order == old(g.order) && g.nolimit == old(g.nolimit)
      ensures q.avail[i] == 0 ==> forall j :: 0 <= j < n && j != i ==> g.due[j] == old(g.due)[j]
      ensures q.avail[i] > 0 && q.rate[i] > 0 ==> Again(old(g), g, i, bytes, q.rate[i])
      ensures Moved(old(q), old(g), i, q, g)
    {
      hide Stamp, Delay, Core, Ready, CountLe, TsLe, Entered, Again, Moved;
      ghost var q0, g0 := q, g;
      CoreFacts(q, g, n);
      bytes := Min(q.avail[i], q.maxChunk[i]);
      q := q.(avail := q.avail[i := q.avail[i] - bytes]);
      if q.rate[i] > 0 {
        q := q.(nextTs := q.nextTs[i := Stamp(q.tsVirtual + Delay(bytes, q.rate[i]), MID)]);
      }
      g := FiredShadow(q, g, n, i, bytes);
      FiredCore(q0, g0, n, q, i, bytes);
      CoreFacts(q, g, n);
      FiredDue(q, g0, n, i, bytes);
      ghost var q1 := q;
      if q.avail[i] > 0 {
        Activate(i);
        CoreFacts(q, g, n);
      }
      FiredMoves(q0, g0, n, i, bytes, q1, q, g);
    }

    /** What polling leaves alone. */
    twostate predicate Polled(shots: seq<Shot>)
      reads this
    {
      && Valid() && q.rate == old(q.rate) && q.maxChunk == old(q.maxChunk)
      && |q.avail| == |old(q.avail)| && Sum(q.avail) + Bytes(shots) == Sum(old(q.avail))
      && Logged(old(g.log), g.log, shots) && (old(Busy(q, n)) ==> Busy(q, n))
    }

    /** What serving leaves alone. */
    twostate predicate SameTime()
      reads this
    {
      && q.rate == old(q.rate) && q.maxChunk == old(q.maxChunk) && q.nolimitFirst == old(q.nolimitFirst)
      && q.tsVirtual == old(q.tsVirtual) && q.tsReal == old(q.tsReal) && g.vt == old(g.vt) && g.rt == old(g.rt)
    }

    /** The skip list and when its first queue is due are as they were. */
    twostate predicate SameFirst()
      reads this
    {
      && g.order == old(g.order)
      && (|g.order| > 0 && g.order[0] < |g.due| ==> g.order[0] < |old(g.due)| && g.due[g.order[0]] == old(g.due)[g.order[0]])
    }

    /** Serving the no-limit list does not change whether something will be left to do. */
    twostate predicate NolimitKeeps()
      reads this
    {
      && (DueNow(g) || StrayNolimit(q, g) <==> old(DueNow(g) || StrayNolimit(q, g)))
      && (forall most :: StraySkip(q, g, most) <==> old(StraySkip(q, g, most)))
      && (old(Homed(q, g)) ==> Homed(q, g))
    }

    /** Neither does serving the skip list. */
    twostate predicate SkipKeeps(most: int)
      reads this
    {
      && (g.nolimit != [] || StraySkip(q, g, most) <==> old(g.nolimit != [] || StraySkip(q, g, most)))
      && (StrayNolimit(q, g) <==> old(StrayNolimit(q, g)))
      && (old(Homed(q, g)) ==> Homed(q, g))
    }

    /** Fire a queue just taken off its list, if it has anything to send. */
    method Serve(i: nat, shots: seq<Shot>) returns (shots': seq<Shot>)
      requires Linkable(i) && NoneLostBut(q, n, i) && Ready(q, g, n, i)
      modifies this
      ensures Valid() && SameTime() && (old(Busy(q, n)) ==> Busy(q, n)) && |g.order| >= |old(g.order)|
      ensures |q.avail| == |old(q.avail)| && Sum(q.avail) + Bytes(shots') == Sum(old(q.avail)) + Bytes(shots)
      ensures if old(q.avail)[i] > 0
              then |shots'| == |shots| + 1 && shots <= shots' && shots'[|shots|].idx == i
                   && g.log == old(g.log) + [Fired(i, g.vt, shots'[|shots|].bytes, q.rate[i])]
              else shots' == shots && g == old(g)
      ensures q.rate[i] == 0 ==> g.order == old(g.order) && (g.nolimit == old(g.nolimit) || g.nolimit == old(g.nolimit) + [i])
      ensures old(q.avail)[i] <= q.maxChunk[i] ==>
        && Sum(q.avail) == Sum(old(q.avail)) - old(q.avail)[i] && g.nolimit == old(g.nolimit)
        && (i !in old(g.order) ==> SameFirst())
      ensures old(q.avail)[i] > q.maxChunk[i] && q.rate[i] > 0 ==>
        && q.avail == old(q.avail)[i := old(q.avail)[i] - q.maxChunk[i]]
        && Again(old(g), g, i, q.maxChunk[i], q.rate[i])
      ensures Moved(old(q), old(g), i, q, g)
    {
      hide Stamp, Core, Bytes, Sum, Delay;
      shots' := shots;
      CoreFacts(q, g, n);
      if q.avail[i] > 0 {
        ghost var before := q.avail;
        var bytes := Fire(i);
        CoreFacts(q, g, n);
        SumUpdate(before, i, before[i] - bytes);
        BytesAppend(shots, Shot(i, bytes));
        shots' := shots + [Shot(i, bytes)];
      }
    }

    /** Take the first queue off the no-limit list. */
    method PopNolimit() returns (i: nat)
      requires Valid() && g.nolimit != []
      modifies this
      ensures Linkable(i) && NoneLostBut(q, n, i) && Ready(q, g, n, i) && (old(Busy(q, n)) ==> Busy(q, n))
      ensures i == old(g).nolimit[0] && g == old(g).(nolimit := old(g).nolimit[1..]) && i !in g.order
      ensures SameTime() && q.avail == old(q.avail)
    {
      hide Stamp, Linked, Timed, PaceInv, Nolimit;
      PopNolimitCore(q, g, n);
      i := q.nolimitHead;
      q := q.(nolimitHead := q.next[0][i]);
      if q.nolimitHead == NONE {
        q := q.(nolimitTail := NONE);
      }
      q := q.(inNolimit := q.inNolimit[i := false]);
      g := g.(nolimit := g.nolimit[1..]);
      NotListed(q, g, n, i);
    }

    /** One step of flow_poll_nolimit: the first queue of the no-limit list. */
    method NolimitTurn(shots: seq<Shot>) returns (shots': seq<Shot>)
      requires Valid() && g.nolimit != []
      modifies this
      ensures Valid() && SameTime() && (old(Busy(q, n)) ==> Busy(q, n)) && |g.order| >= |old(g.order)|
      ensures |q.avail| == |old(q.avail)| && Sum(q.avail) + Bytes(shots') == Sum(old(q.avail)) + Bytes(shots)
      ensures (shots' == shots && g == old(g).(nolimit := old(g).nolimit[1..]))
           || (|shots'| == |shots| + 1 && shots <= shots' && |g.log| == |old(g.log)| + 1 && old(g.log) <= g.log
               && Records(g.log[|old(g.log)|], shots'[|shots|]))
      ensures old(Unpaced(q, g)) ==> Unpaced(q, g)
      ensures old(Single(q, g, n)) ==> |shots'| == |shots| + 1 && U32(Sum(q.avail)) == 0 && SameFirst() && g.nolimit == []
      ensures NolimitKeeps()
      ensures old(FirstOf(q, g.nolimit)) ==> |shots'| == |shots| + 1 && shots'[|shots|].idx == old(g.nolimit)[0]
    {
      hide Stamp, Core, Bytes, Sum, Delay, Moved;
      ghost var q0, g0 := q, g;
      CoreFacts(q, g, n);
      ListsApart(q, g, n);
      var i := PopNolimit();
      assert i in old(g.nolimit) && forall j :: j in g.nolimit ==> j in old(g.nolimit);
      CoreFacts(q, g, n);
      ghost var q1, g1 := q, g;
      shots' := Serve(i, shots);
      NolimitTurnMoves(q0, g0, i, q1, g1, q, g);
    }

    /** flow_poll_nolimit: serve the no-limit list round robin, at most num chunks. */
    method PollNolimit(num: nat) returns (shots: seq<Shot>)
      requires Valid()
      modifies this
      ensures Polled(shots) && |shots| <= num && SameTime() && |g.order| >= |old(g.order)|
      ensures |shots| < num ==> g.nolimit == []
      ensures shots == [] ==> g.order == old(g.order)
      ensures old(g.nolimit) == [] ==> shots == [] && q == old(q) && g == old(g)
      ensures old(Unpaced(q, g)) ==> g.order == []
      ensures old(Single(q, g, n)) && num > 0 ==> |shots| == 1 && U32(Sum(q.avail)) == 0 && SameFirst()
      ensures NolimitKeeps()
      ensures old(FirstOf(q, g.nolimit)) && num > 0 ==> |shots| > 0 && shots[0].idx == old(g.nolimit)[0]
    {
      hide Stamp, Core, Bytes, Sum, DueNow, StrayNolimit, StraySkip, Homed;
      shots := [];
      BytesEmpty();
      NolimitHead(q, g, n);
      while |shots| < num && q.nolimitHead != NONE
        invariant Polled(shots) && |shots| <= num && SameTime() && |g.order| >= |old(g.order)|
        invariant shots == [] ==> g.order == old(g.order)
        invariant old(g.nolimit) == [] ==> shots == [] && q == old(q) && g == old(g)
        invariant old(Unpaced(q, g)) ==> Unpaced(q, g)
        invariant old(Single(q, g, n)) ==>
          || (shots == [] && q == old(q) && g == old(g))
          || (|shots| == 1 && U32(Sum(q.avail)) == 0 && SameFirst() && g.nolimit == [])
        invariant q.nolimitHead == NONE <==> g.nolimit == []
        invariant NolimitKeeps()
        invariant old(FirstOf(q, g.nolimit)) ==>
          (shots == [] && q == old(q) && g == old(g)) || (|shots| > 0 && shots[0].idx == old(g.nolimit)[0])
        decreases num - |shots|, |g.nolimit|
      {
        ghost var log1, shots1 := g.log, shots;
        shots := NolimitTurn(shots);
        LoggedAppend(old(g.log), log1, shots1, g.log, shots);
        NolimitHead(q, g, n);
      }
    }

    /** Unlink the first queue from every level it heads and move virtual time to it. */
    method PopSkip() returns (i: nat)
      requires Valid() && g.order != []
      modifies this
      ensures Linkable(i) && NoneLostBut(q, n, i) && Ready(q, g, n, i)
      ensures i == old(g).order[0] < |old(g).due| && old(g).vt <= old(g).due[old(g).order[0]]
      ensures g == old(g).(order := old(g).order[1..], vt := old(g).due[old(g).order[0]])
      ensures q.rate == old(q.rate) && q.maxChunk == old(q.maxChunk) && q.avail == old(q.avail)
      ensures q.nolimitFirst == old(q.nolimitFirst) && q.tsReal == old(q.tsReal) && (old(Busy(q, n)) ==> Busy(q, n))
    {
      hide Stamp, Level, Chain, Delay, Pacing, Paced, Timed;
      ghost var q0, g0 := q, g;
      FirstHeads(q, g, n, 0);
      i := q.head[0];
      var l := 0;
      while l < LEVELS && q.head[l] == i
        invariant l <= LEVELS && |q.head| == LEVELS && q == q0.(head := q.head) && g == g0
        invariant forall j :: 0 <= j < l ==> q0.head[j] == i && q.head[j] == q0.next[j][i]
        invariant forall j :: l <= j < LEVELS ==> q.head[j] == q0.head[j]
      {
        q := q.(head := q.head[l := q.next[l][i]]);
        l := l + 1;
      }
      forall j | l <= j < LEVELS
        ensures q0.head[j] != i
      {
        FirstHeads(q0, g0, n, l);
        FirstHeads(q0, g0, n, j);
      }
      q := q.(inSkip := q.inSkip[i := false]);
      PopSkipCore(q0, g0, n, q);
      q := q.(tsVirtual := q.nextTs[i]);
      g := g.(order := g.order[1..], vt := g.due[i]);
    }

    /** Move virtual time forward to v: right exactly if no listed queue is due before. */
    method SetVirtual(ts: nat, ghost v: int)
      requires Valid() && ts == Stamp(v, MID) && g.vt <= v && (|g.order| > 0 ==> g.order[0] < |g.due|)
      modifies this
      ensures q == old(q).(tsVirtual := ts) && g == old(g).(vt := v)
      ensures Valid() <==> (|g.order| > 0 ==> v <= g.due[g.order[0]])
      ensures old(Busy(q, n)) ==> Busy(q, n)
    {
      hide Stamp, Level, Chain, Delay, Pacing, Paced;
      if |g.order| == 0 || v <= g.due[g.order[0]] {
        AdvanceTime(q, g, n, v);
      } else {
        assert g.order[0] in g.order;
      }
      q := q.(tsVirtual := ts);
      g := g.(vt := v);
    }

    /** One queue of flow_poll_skiplist that is due. */
    method SkipTurn(shots: seq<Shot>, ghost most: int) returns (shots': seq<Shot>)
      requires Valid() && |g.order| > 0 && g.order[0] < |g.due| && g.due[g.order[0]] <= most && Reach(q, g, most)
      modifies this
      ensures Valid() && (old(Busy(q, n)) ==> Busy(q, n)) && Reach(q, g, most) && g.vt <= most
      ensures q.rate == old(q.rate) && q.maxChunk == old(q.maxChunk) && q.nolimitFirst == old(q.nolimitFirst)
      ensures g.rt == old(g.rt) && q.tsReal == old(q.tsReal) && old(g.vt) <= g.vt
      ensures |q.avail| == |old(q.avail)| && Sum(q.avail) + Bytes(shots') == Sum(old(q.avail)) + Bytes(shots)
      ensures (shots' == shots && g.log == old(g.log) && |g.order| < |old(g.order)| && g.nolimit == old(g.nolimit))
           || (|shots'| == |shots| + 1 && shots <= shots' && |g.log| == |old(g.log)| + 1 && old(g.log) <= g.log
               && Records(g.log[|old(g.log)|], shots'[|shots|]))
      ensures old(Alone(q, g, n)) ==> |shots'| == |shots| + 1 && Spent(old(q), old(g), q, g) && g.vt == old(g.due)[g.order[0]]
      ensures SkipKeeps(most)
      ensures old(FirstOf(q, g.order)) ==> |shots'| == |shots| + 1 && shots'[|shots|].idx == old(g.order)[0]
    {
      hide Stamp, Core, Bytes, Sum, Delay, Moved, StraySkip, StrayNolimit, Homed;
      ghost var q0, g0 := q, g;
      ListsApart(q, g, n);
      CoreFacts(q, g, n);
      assert |g.order| == 1 ==> g.order == [g.order[0]] && g.order[1..] == [];
      var j := PopSkip();
      CoreFacts(q, g, n);
      ghost var q1, g1 := q, g;
      shots' := Serve(j, shots);
      CoreFacts(q, g, n);
      assert j in g0.order;
      SkipTurnMoves(q0, g0, j, q1, g1, q, g, most);
    }

    /** flow_poll_skiplist at real time `now`, with timestamp cur: serve queues in order of their due
        times, up to the virtual time that real time allows, at most num chunks.  Virtual time passes a
        listed queue exactly if there is one and the gap since the last poll is late. */
    method PollSkiplist(num: nat, cur: nat, origNum: nat, ghost now: int) returns (shots: seq<Shot>, limited: bool)
      requires Valid() && cur == Stamp(now, MID) && (Late(q, g, now) && |g.order| > 0 ==> origNum > 0)
      modifies this
      ensures Valid() <==> !old(Late(q, g, now) && |g.order| > 0 && num > 0)
      ensures Valid() ==> Polled(shots)
      ensures |shots| <= num && (|shots| < num && !limited ==> g.order == []) && (limited ==> |g.order| > 0)
      ensures shots == [] ==> g.nolimit == old(g.nolimit)
      ensures q.nolimitFirst == old(q.nolimitFirst)
      ensures g.rt == now && old(g.vt) <= g.vt <= old(g.vt) + Gap(old(g), now)
      ensures old(Beyond(q, g, n, now)) && num > 0 ==>
        && shots == [] && limited && q == old(q).(tsVirtual := q.tsVirtual, tsReal := cur)
        && g == old(g).(vt := old(g.vt) + Gap(old(g), now), rt := now)
      ensures old(Starting(q, g, n, now)) && num > 1 ==> |shots| == 1 && limited && Spent(old(q), old(g), q, g) && Waits(q, g, n)
      ensures Valid() && |shots| == origNum ==> g.vt == NextStop(g, old(g.vt) + Gap(old(g), now))
      ensures SkipKeeps(old(g.vt) + Gap(old(g), now))
      ensures Valid() && |shots| < num ==>
        g.vt == old(g.vt) + Gap(old(g), now) && !DueNow(g) && !StraySkip(q, g, old(g.vt) + Gap(old(g), now))
      ensures old(FirstOf(q, g.order) && !Beyond(q, g, n, now)) && num > 0 ==>
        |shots| > 0 && shots[0].idx == old(g.order)[0]
    {
      hide Stamp, Core, Bytes, Sum, Late, Reach, Alone, Spent, Starting, StrayNolimit, StraySkip, Homed;
      CoreFacts(q, g, n);
      ghost var most, late := g.vt + Gap(g, now), Late(q, g, now);
      LateIff(q, g, now);
      var maxVts := Stamp(q.tsVirtual + cur - q.tsReal, MID);
      MaxVtsIs(q, g, n, cur, now);
      if late && |g.order| > 0 {
        LatePasses(q, g, n, now);
      }
      shots, limited := ServeDue(num, maxVts, late, most, now);
      ghost var q1, g1 := q, g;
      FinishSkip(|shots| == origNum, maxVts, cur, most, now);
      Overtaken(q, g, n);
      SpentStill(old(q), old(g), q1, g1, q, g);
      StrayStill(q1, g1, q, g);
    }

    /** The loop of flow_poll_skiplist. */
    method ServeDue(num: nat, maxVts: nat, ghost late: bool, ghost most: int, ghost now: int)
      returns (shots: seq<Shot>, limited: bool)
      requires Valid() && maxVts == Stamp(most, MID) && most == g.vt + Gap(g, now)
      requires late == Late(q, g, now) && (late || Reach(q, g, most))
      modifies this
      ensures Valid() <==> !(late && |old(g.order)| > 0 && num > 0)
      ensures Valid() ==> Polled(shots)
      ensures |shots| <= num && (|shots| < num && !limited ==> g.order == []) && (limited ==> |g.order| > 0)
      ensures shots == [] ==> g.nolimit == old(g.nolimit)
      ensures g.rt == old(g.rt) && q.nolimitFirst == old(q.nolimitFirst) && old(g.vt) <= g.vt <= most
      ensures if late then shots == [] && g.order == old(g.order) else Reach(q, g, most)
      ensures |shots| < num ==> g.vt == most
      ensures old(Beyond(q, g, n, now)) && num > 0 ==>
        shots == [] && limited && q == old(q).(tsVirtual := maxVts) && g == old(g).(vt := most)
      ensures old(Starting(q, g, n, now)) && num > 1 ==>
        |shots| == 1 && limited && Spent(old(q), old(g), q, g) && Waits(q, g, n)
      ensures SkipKeeps(most) && (Valid() && |shots| < num ==> !DueNow(g) && !StraySkip(q, g, most))
      ensures old(FirstOf(q, g.order) && !Beyond(q, g, n, now)) && num > 0 ==>
        |shots| > 0 && shots[0].idx == old(g.order)[0]
    {
      hide Stamp, Core, Bytes, Sum, Late, Reach, Delay, Alone, Spent, Starting, DueNow, StrayNolimit, StraySkip, Homed;
      var stopped;
      shots, stopped := ServeWhileDue(num, maxVts, late, most, now);
      limited := false;
      if stopped {
        CoreFacts(q, g, n);
        SkipHead(q, g, n);
        limited := q.head[0] != NONE;
        ghost var q1, g1 := q, g;
        SetVirtual(maxVts, most);
        SpentStill(old(q), old(g), q1, g1, q, g);
        StrayStill(q1, g1, q, g);
        AtMost(q, g, most);
        if Valid() {
          NoneDue(q, g, n, most);
        }
      }
      Overtaken(q, g, n);
    }

    /** Serve queues while the first one is due, up to num of them. */
    method ServeWhileDue(num: nat, maxVts: nat, ghost late: bool, ghost most: int, ghost now: int)
      returns (shots: seq<Shot>, stopped: bool)
      requires Valid() && maxVts == Stamp(most, MID) && most == g.vt + Gap(g, now)
      requires late == Late(q, g, now) && (late || Reach(q, g, most))
      modifies this
      ensures Polled(shots) && |shots| <= num && (stopped <==> |shots| < num)
      ensures shots == [] ==> g.nolimit == old(g.nolimit)
      ensures g.rt == old(g.rt) && q.nolimitFirst == old(q.nolimitFirst) && old(g.vt) <= g.vt <= most
      ensures if late then shots == [] && g.order == old(g.order) else Reach(q, g, most)
      ensures stopped && |g.order| > 0 ==>
        g.order[0] < |g.due| && if late then g.due[g.order[0]] < most else g.due[g.order[0]] > most
      ensures old(Beyond(q, g, n, now)) || late ==> shots == [] && q == old(q) && g == old(g)
      ensures old(Starting(q, g, n, now)) && num > 1 ==> |shots| == 1 && Spent(old(q), old(g), q, g) && |g.order| > 0
      ensures SkipKeeps(most)
      ensures old(FirstOf(q, g.order) && !Beyond(q, g, n, now)) && num > 0 ==>
        |shots| > 0 && shots[0].idx == old(g.order)[0]
    {
      hide Stamp, Core, Bytes, Sum, TsLe, Late, Reach, Delay, Alone, Spent, Starting, DueNow, StrayNolimit, StraySkip, Homed;
      ghost var beyond, starting := Beyond(q, g, n, now), Starting(q, g, n, now);
      ghost var lead, first := FirstOf(q, g.order), if |g.order| > 0 then g.order[0] else 0;
      CoreFacts(q, g, n);
      shots, stopped := [], false;
      BytesEmpty();
      SkipHead(q, g, n);
      while |shots| < num
        invariant Polled(shots) && |shots| <= num && !stopped
        invariant shots == [] ==> g.nolimit == old(g.nolimit)
        invariant g.rt == old(g.rt) && q.nolimitFirst == old(q.nolimitFirst)
        invariant old(g.vt) <= g.vt <= most && (late || Reach(q, g, most))
        invariant late || beyond ==> shots == [] && q == old(q) && g == old(g)
        invariant starting ==> (shots == [] && q == old(q) && g == old(g)) || (|shots| == 1 && Spent(old(q), old(g), q, g))
        invariant SkipKeeps(most)
        invariant lead ==> (shots == [] && q == old(q) && g == old(g)) || (|shots| > 0 && shots[0].idx == first)
        decreases num - |shots|, |g.order|
      {
        CoreFacts(q, g, n);
        SkipHead(q, g, n);
        var i := q.head[0];
        if starting {
          StartingTest(old(q), old(g), n, now, q, g);
        }
        if i != NONE {
          SkipTest(q, g, n, most, now, late);
        }
        if i == NONE || !TsLe(q, q.nextTs[i], maxVts) {
          stopped := true;
          break;
        }
        ghost var log1, shots1 := g.log, shots;
        shots := SkipTurn(shots, most);
        LoggedAppend(old(g.log), log1, shots1, g.log, shots);
      }
    }

    /** The end of flow_poll_skiplist: a full batch leaves virtual time at the next queue or at the
        most real time allows, and the real timestamp is brought up to date. */
    method FinishSkip(full: bool, maxVts: nat, cur: nat, ghost most: int, ghost now: int)
      requires cur == Stamp(now, MID) && maxVts == Stamp(most, MID) && g.vt <= most
      requires full ==> Valid() && (|g.order| > 0 ==> Reach(q, g, most))
      modifies this
      ensures q == old(q).(tsVirtual := q.tsVirtual, tsReal := cur) && g == old(g).(vt := g.vt, rt := now)
      ensures (old(Valid()) ==> Valid()) && old(g.vt) <= g.vt <= most && (!full ==> g.vt == old(g.vt))
      ensures full ==> g.vt == NextStop(g, most)
      ensures old(Busy(q, n)) ==> Busy(q, n)
    {
      hide Stamp, Core, TsLe;
      if full {
        CoreFacts(q, g, n);
        SkipHead(q, g, n);
        var i := q.head[0];
        if i != NONE {
          TsLeIsDueLe(q, g, n, i, most);
        }
        if i != NONE && TsLe(q, q.nextTs[i], maxVts) {
          SetVirtual(q.nextTs[i], g.due[i]);
        } else {
          SetVirtual(maxVts, most);
        }
      }
      if Core(q, g, n) {
        SetRealCore(q, g, n, cur, now);
      }
      q := q.(tsReal := cur);
      g := g.(rt := now);
    }

    /** What polling both lists guarantees: nothing due is held back, and time moves as far as it may. */
    twostate predicate Served(num: nat, now: int, shots: seq<Shot>, limited: bool)
      reads this
    {
      && Polled(shots) && |shots| <= num && q.nolimitFirst == old(q.nolimitFirst)
      && (shots == [] && num > 0 && !limited ==> g.order == [] && g.nolimit == [])
      && (limited ==> |g.order| > 0)
      && g.rt == now && old(g.vt) <= g.vt <= old(g.vt) + Gap(old(g), now)
      && (old(Blocked(q, g, n, now)) && num > 0 ==> shots == [] && limited && q.avail == old(q.avail) && Blocked(q, g, n, now))
      && (old(Draining(q, g, n, now)) && num > 1 ==> |shots| == 1 && limited && U32(Sum(q.avail)) == 0)
      && (old(Starting(q, g, n, now)) && num > 1 ==>
           |shots| == 1 && limited && Spent(old(q), old(g), q, g) && Blocked(q, g, n, now))
      && (old(Homed(q, g)) ==> Homed(q, g))
    }

    /** With fewer events than asked for, virtual time is where real time allows, and something is left to do exactly if a
        queue was in the list polled first although its rate belongs to the other one. */
    twostate predicate Finished(now: int)
      reads this
    {
      var most := old(g.vt) + Gap(old(g), now);
      g.rt == now && g.vt == most && (Drained(g) <==> !old(Stray(q, g, g.vt + Gap(g, now))))
    }

    method NolimitFirst(num: nat, cur: nat, origNum: nat, ghost now: int) returns (shots: seq<Shot>, limited: bool)
      requires Valid() && Punctual(q, g, now) && cur == Stamp(now, MID) && q.nolimitFirst
      modifies this
      ensures Served(num, now, shots, limited) && (|shots| < num ==> Finished(now))
      ensures old(FirstOf(q, g.nolimit)) && num > 0 ==> |shots| > 0 && shots[0].idx == old(g.nolimit)[0]
    {
      hide Stamp, Core, Bytes, Sum, Delay, StrayNolimit, StraySkip, Homed, DueNow, Logged, Busy, NoneLost;
      CoreFacts(q, g, n);
      var x := PollNolimit(num);
      CoreFacts(q, g, n);
      ghost var log1 := g.log;
      assert old(Draining(q, g, n, now)) && num > 1 ==> Beyond(q, g, n, now);
      var y;
      y, limited := PollSkiplist(num - |x|, cur, origNum, now);
      LoggedConcat(old(g.log), log1, x, g.log, y);
      BytesConcat(x, y);
      shots := x + y;
      LateIff(q, g, now);
    }

    method SkiplistFirst(num: nat, cur: nat, origNum: nat, ghost now: int) returns (shots: seq<Shot>, limited: bool)
      requires Valid() && Punctual(q, g, now) && cur == Stamp(now, MID) && !q.nolimitFirst
      modifies this
      ensures Served(num, now, shots, limited) && (|shots| < num ==> Finished(now))
      ensures old(FirstOf(q, g.order) && !Beyond(q, g, n, now)) && num > 0 ==>
        |shots| > 0 && shots[0].idx == old(g.order)[0]
    {
      hide Stamp, Core, Bytes, Sum, Delay, StrayNolimit, StraySkip, Homed, DueNow, Logged, Busy, NoneLost;
      var x;
      x, limited := PollSkiplist(num, cur, origNum, now);
      ghost var log1 := g.log;
      var y := PollNolimit(num - |x|);
      if g.nolimit == [] {
        NoneStray(q, g);
      }
      LoggedConcat(old(g.log), log1, x, g.log, y);
      BytesConcat(x, y);
      shots := x + y;
      LateIff(q, g, now);
    }

    /** flow_qman_poll: both lists, in alternating order. */
    method Poll(num: nat, cur: nat, origNum: nat, ghost now: int) returns (shots: seq<Shot>, limited: bool)
      requires Valid() && Punctual(q, g, now) && cur == Stamp(now, MID)
      modifies this
      ensures Polled(shots) && |shots| <= num
      ensures shots == [] && num > 0 && !limited ==> Sum(q.avail) == 0
      ensures limited && Busy(q, n) ==> Sum(q.avail) > 0
      ensures g.rt == now && old(g.vt) <= g.vt <= old(g.vt) + Gap(old(g), now)
      ensures old(Blocked(q, g, n, now)) && num > 0 ==> shots == [] && limited && q.avail == old(q.avail) && Blocked(q, g, n, now)
      ensures old(Draining(q, g, n, now)) && num > 1 ==> |shots| == 1 && limited && U32(Sum(q.avail)) == 0
      ensures old(Starting(q, g, n, now)) && num > 1 ==>
        |shots| == 1 && limited && Spent(old(q), old(g), q, g) && Blocked(q, g, n, now)
      ensures q.nolimitFirst == !old(q.nolimitFirst) && (old(Homed(q, g)) ==> Homed(q, g))
      ensures |shots| < num ==> Finished(now)
      ensures old(q.nolimitFirst && FirstOf(q, g.nolimit)) && num > 0 ==> |shots| > 0 && shots[0].idx == old(g.nolimit)[0]
      ensures old(!q.nolimitFirst && FirstOf(q, g.order) && !Beyond(q, g, n, now)) && num > 0 ==>
        |shots| > 0 && shots[0].idx == old(g.order)[0]
    {
      hide Stamp, Core, Bytes, Sum, Delay, Stray, Homed, Drained, Spent, Blocked, Draining, Starting, Busy, NoneLost, Gap,
           Logged, Late;
      if q.nolimitFirst {
        shots, limited := NolimitFirst(num, cur, origNum, now);
      } else {
        shots, limited := SkiplistFirst(num, cur, origNum, now);
      }
      if shots == [] && num > 0 && !limited {
        NothingLeft(q, g, n);
      } else if limited && Busy(q, n) {
        SomethingLeft(q, g, n);
      }
      FlipCore(q, g, n);
      FlipKeeps(q, g, n, now);
      q := q.(nolimitFirst := !q.nolimitFirst);
    }

    /** flow_set_impl: change rate, chunk size or byte count of a queue, and link it in if it got
        something to send. */
    method Set(i: nat, c: Change)
      requires Valid() && i < n && ChangeOk(q.rate[i], q.maxChunk[i], c)
      modifies this
      ensures Valid() && g.vt == old(g.vt) && g.rt == old(g.rt)
      ensures |old(q.rate)| == |old(q.maxChunk)| == |old(q.avail)| == n
      ensures q.rate == old(q.rate)[i := NewRate(old(q.rate)[i], c)]
      ensures q.maxChunk == old(q.maxChunk)[i := NewChunk(old(q.maxChunk)[i], c)]
      ensures q.avail == old(q.avail)[i := NewAvail(old(q.avail)[i], c)]
      ensures g.log == if q.rate == old(q.rate) && q.maxChunk == old(q.maxChunk) then old(g.log)
                       else old(g.log) + [Configured(i)]
      ensures Adjusted(old(q), old(g), i, c, q, g)
      ensures i < |old(q.inNolimit)| && i < |old(q.inSkip)| && i < |q.rate|
      ensures old(Homed(q, g)) ==>
        (Homed(q, g) <==> !(if q.rate[i] == 0 then old(q.inSkip)[i] else old(q.inNolimit)[i]))
      ensures i < |old(q.inSkip)| && (old(Busy(q, n)) ==> (Busy(q, n) <==> !(old(q.inSkip)[i] && q.avail[i] == 0)))
    {
      hide Stamp, Linked, Timed, Nolimit, PaceInv, Delay, NewRate, NewChunk, NewAvail, Homed;
      CoreFacts(q, g, n);
      ghost var q0, g0 := q, g;
      Configure(i, c);
      ghost var q1 := q;
      if (c.setAvail || c.addAvail) && q.avail[i] > 0 && !q.inSkip[i] && !q.inNolimit[i] {
        Activate(i);
      }
      HomedAfterSet(q0, g0, n, i, q1, q, g);
    }

    method Configure(i: nat, c: Change)
      requires Valid() && i < n && ChangeOk(q.rate[i], q.maxChunk[i], c)
      modifies this
      ensures Core(q, g, n) && NoneLostBut(q, n, i) && q.inSkip == old(q.inSkip)
      ensures q == old(q).(rate := q.rate, maxChunk := q.maxChunk, avail := q.avail)
      ensures !(c.setAvail || c.addAvail) ==> NoneLost(q, n)
      ensures q.rate == old(q.rate)[i := NewRate(old(q.rate)[i], c)]
      ensures q.maxChunk == old(q.maxChunk)[i := NewChunk(old(q.maxChunk)[i], c)]
      ensures q.avail == old(q.avail)[i := NewAvail(old(q.avail)[i], c)]
      ensures g == if q.rate == old(q.rate) && q.maxChunk == old(q.maxChunk) then old(g)
                   else old(g).(log := old(g).log + [Configured(i)])
    {
      hide Stamp, Linked, Timed, Nolimit, PaceInv, Delay;
      ghost var q0, g0 := q, g;
      var rate, chunk, avail := q.rate[i], q.maxChunk[i], q.avail[i];
      if c.setRate {
        rate := c.rate;
      }
      if c.setChunk {
        chunk := c.maxChunk;
      }
      if c.setAvail {
        avail := c.avail;
      } else if c.addAvail {
        avail := U32(avail + c.avail);
      }
      assert rate == NewRate(q.rate[i], c) && chunk == NewChunk(q.maxChunk[i], c) && avail == NewAvail(q.avail[i], c);
      hide NewRate, NewChunk, NewAvail;
      q := q.(rate := q.rate[i := rate], maxChunk := q.maxChunk[i := chunk], avail := q.avail[i := avail]);
      if q.rate != q0.rate || q.maxChunk != q0.maxChunk {
        g := g.(log := g.log + [Configured(i)]);
      }
      SetCore(q0, g0, n, i, q, g);
    }
  }

  /** Arguments and flags of tas_qman_set. */
  datatype Change = Change(rate: nat, avail: nat, maxChunk: nat,
                           setRate: bool, setChunk: bool, setAvail: bool, addAvail: bool)

  function NewRate(old_: nat, c: Change): nat {
    if c.setRate then c.rate else old_
  }

  function NewChunk(old_: nat, c: Change): nat {
    if c.setChunk then c.maxChunk else old_
  }

  function NewAvail(old_: nat, c: Change): nat {
    if c.setAvail then c.avail else if c.addAvail then U32(old_ + c.avail) else old_
  }

  /** The lists after a change: a queue that got something to send enters the list for its rate. */
  ghost predicate Adjusted(q: Queues, g: Shadow, i: nat, c: Change, q': Queues, g': Shadow) {
    && i < |q.rate| == |q.maxChunk| == |q.avail| == |q.inSkip| == |q.inNolimit| == |q.nextTs| == |g.due|
    && q'.rate == q.rate[i := NewRate(q.rate[i], c)] && q'.maxChunk == q.maxChunk[i := NewChunk(q.maxChunk[i], c)]
    && q'.avail == q.avail[i := NewAvail(q.avail[i], c)]
    && q'.nolimitFirst == q.nolimitFirst && q'.tsVirtual == q.tsVirtual && q'.tsReal == q.tsReal
    && if (c.setAvail || c.addAvail) && q'.avail[i] > 0 && !q.inSkip[i] && !q.inNolimit[i] then
         if q'.rate[i] == 0 then g' == g.(nolimit := g.nolimit + [i], log := g'.log)
         else Entered(q.(rate := q'.rate, maxChunk := q'.maxChunk), g, i, g') && g'.vt == g.vt && g'.rt == g.rt
       else g' == g.(log := g'.log)
  }

  /** One chunk at the new rate takes less than half the timestamp range. */
  predicate ChangeOk(rate: nat, maxChunk: nat, c: Change) {
    NewRate(rate, c) > 0 ==> Delay(NewChunk(maxChunk, c), NewRate(rate, c)) < MID
  }

  /** A change of rate leaves a listed queue in the wrong list exactly if it crosses zero. */
  lemma HomedAfterSet(q: Queues, g: Shadow, n: nat, i: nat, q1: Queues, q2: Queues, g2: Shadow)
    requires Core(q, g, n) && i < n && |q1.rate| == n && q1.rate == q.rate[i := q1.rate[i]] && q2.rate == q1.rate
    requires (g2.order == g.order && g2.nolimit == g.nolimit)
          || (!q.inSkip[i] && !q.inNolimit[i]
              && (if q1.rate[i] == 0 then g2.order == g.order && g2.nolimit == g.nolimit + [i]
                  else g2.nolimit == g.nolimit && forall j :: j in g2.order <==> j in g.order || j == i))
    ensures Homed(q, g) ==> (Homed(q2, g2) <==> !(if q2.rate[i] == 0 then q.inSkip[i] else q.inNolimit[i]))
  {
    hide Stamp, Chain, PaceInv, Timed, Level;
    if Homed(q, g) {
      assert q.inSkip[i] <==> i in g.order;
      assert q.inNolimit[i] <==> i in g.nolimit;
      if !(if q2.rate[i] == 0 then q.inSkip[i] else q.inNolimit[i]) {
        forall j <- g2.order
          ensures j < |q2.rate| && q2.rate[j] > 0
        {
          assert j in g.order || j == i;
        }
        forall j <- g2.nolimit
          ensures j < |q2.rate| && q2.rate[j] == 0
        {
          assert j in g.nolimit || j == i;
        }
      }
    }
  }

  lemma SetCore(q: Queues, g: Shadow, n: nat, i: nat, q': Queues, g': Shadow)
    requires Core(q, g, n) && i < n
    requires |q'.rate| == |q'.maxChunk| == |q'.avail| == n
    requires q' == q.(rate := q.rate[i := q'.rate[i]], maxChunk := q.maxChunk[i := q'.maxChunk[i]], avail := q'.avail)
    requires q'.rate[i] > 0 ==> Delay(q'.maxChunk[i], q'.rate[i]) < MID
    requires g' == if q'.rate == q.rate && q'.maxChunk == q.maxChunk then g else g.(log := g.log + [Configured(i)])
    ensures Core(q', g', n)
  {
    hide Stamp, Delay, Level, Chain, Sorted;
    if g' == g {
      SamePace(q, g, n, q', g');
    } else {
      var e := Configured(i);
      ConfiguredPaced(g.log, i, g.vt);
      forall j | 0 <= j < n
        ensures Pacing(q', g', n, j)
      {
        assert Pacing(q, g, n, j);
        assert (g.log + [e])[..|g.log|] == g.log;
        LastEventIs(g.log, j);
      }
    }
  }

  lemma ConfiguredPaced(log: seq<Event>, i: nat, vt: int)
    requires Paced(log) && Chronological(log, vt)
    ensures Paced(log + [Configured(i)]) && Chronological(log + [Configured(i)], vt)
  {
    hide Spaced;
    var log' := log + [Configured(i)];
    forall a: nat, b: nat | Consecutive(log', a, b) && log'[b].rate > 0
      ensures Spaced(log'[a].bytes, log'[b].rate, log'[b].vt - log'[a].vt)
    {
      forall k | a <= k <= b
        ensures log'[k] == log[k]
      {
      }
      assert Consecutive(log, a, b);
    }
  }

  lemma NothingLeft(q: Queues, g: Shadow, n: nat)
    requires Inv(q, g, n) && g.order == [] && g.nolimit == []
    ensures Sum(q.avail) == 0
  {
    SumZero(q.avail);
  }

  lemma FlipKeeps(q: Queues, g: Shadow, n: nat, now: int)
    requires Shape(q, n) && Shape(q.(nolimitFirst := !q.nolimitFirst), n)
    ensures var q' := q.(nolimitFirst := !q.nolimitFirst);
      && (Homed(q', g) <==> Homed(q, g)) && (Blocked(q', g, n, now) <==> Blocked(q, g, n, now))
      && (Busy(q', n) <==> Busy(q, n)) && (NoneLost(q', n) <==> NoneLost(q, n))
      && (forall q0, g0 :: Spent(q0, g0, q', g) <==> Spent(q0, g0, q, g))
  {
    hide Delay;
  }

  lemma FlipCore(q: Queues, g: Shadow, n: nat)
    requires Core(q, g, n)
    ensures Core(q.(nolimitFirst := !q.nolimitFirst), g, n) && Shape(q, n) && Shape(q.(nolimitFirst := !q.nolimitFirst), n)
  {
    hide Stamp, Level, Chain, Paced;
    SamePace(q, g, n, q.(nolimitFirst := !q.nolimitFirst), g);
  }

  lemma {:induction false} BytesConcat(a: seq<Shot>, b: seq<Shot>)
    ensures Bytes(a + b) == Bytes(a) + Bytes(b)
  {
    if |a| == 0 {
      assert a + b == b;
    } else {
      BytesConcat(a[1..], b);
      assert (a + b)[1..] == a[1..] + b;
    }
  }

  lemma LoggedConcat(before: seq<Event>, mid: seq<Event>, x: seq<Shot>, after: seq<Event>, y: seq<Shot>)
    requires Logged(before, mid, x) && Logged(mid, after, y)
    ensures Logged(before, after, x + y)
  {
    forall k | 0 <= k < |x + y|
      ensures Records(after[|before| + k], (x + y)[k])
    {
      if k < |x| {
        assert (x + y)[k] == x[k] && after[|before| + k] == mid[|before| + k];
      } else {
        assert (x + y)[k] == y[k - |x|] && after[|before| + k] == after[|mid| + (k - |x|)];
      }
    }
  }

  lemma MaxVtsIs(q: Queues, g: Shadow, n: nat, cur: nat, now: int)
    requires Core(q, g, n) && cur == Stamp(now, MID)
    ensures Stamp(q.tsVirtual + cur - q.tsReal, MID) == Stamp(g.vt + Gap(g, now), MID)
  {
    hide Stamp, Linked, Nolimit, PaceInv;
    MaxStamp(g.vt, g.rt, now);
  }

  lemma MaxStamp(vt: int, rt: int, now: int)
    ensures Stamp(Stamp(vt, MID) + Stamp(now, MID) - Stamp(rt, MID), MID) == Stamp(vt + Stamp(now - rt, MID), MID)
  {
    hide Stamp;
    var a, b, c := Stamp(vt, MID), Stamp(now, MID), Stamp(rt, MID);
    StampMinus(a + b, rt, MID);
    StampAbsorb(vt, b - rt, MID);
    StampAbsorb(now, vt - rt, MID);
    StampAbsorb(now - rt, vt, MID);
    assert a + (b - rt) == a + b - rt && b + (vt - rt) == vt + (b - rt);
    assert now + (vt - rt) == now - rt + vt && Stamp(now - rt, MID) + vt == vt + Stamp(now - rt, MID);
  }

  /** The head of level 0 is the first queue of the time order. */
  lemma SkipHead(q: Queues, g: Shadow, n: nat)
    requires Core(q, g, n)
    ensures |q.head| == LEVELS && (q.head[0] == NONE <==> g.order == [])
    ensures g.order != [] ==> q.head[0] == g.order[0] && g.order[0] < n && g.order[0] in g.order
    ensures g.order != [] ==> q.nextTs[g.order[0]] == Stamp(g.due[g.order[0]], MID) && g.vt <= g.due[g.order[0]]
  {
    hide Stamp, PaceInv, Nolimit;
    LevelZero(g.order, g.height);
  }

  lemma SetRealCore(q: Queues, g: Shadow, n: nat, cur: nat, now: int)
    requires Core(q, g, n) && cur == Stamp(now, MID)
    ensures Core(q.(tsReal := cur), g.(rt := now), n)
  {
    hide Stamp, Level, Chain, Paced;
    SamePace(q, g, n, q.(tsReal := cur), g.(rt := now));
  }

  /** One served queue: its index and the bytes taken off it. */
  datatype Shot = Shot(idx: nat, bytes: nat)

  function Bytes(shots: seq<Shot>): nat {
    if |shots| == 0 then 0 else shots[0].bytes + Bytes(shots[1..])
  }

  lemma BytesEmpty()
    ensures Bytes([]) == 0
  {
  }

  lemma {:induction false} BytesAppend(shots: seq<Shot>, s: Shot)
    ensures Bytes(shots + [s]) == Bytes(shots) + s.bytes
  {
    if |shots| > 0 {
      BytesAppend(shots[1..], s);
      assert (shots + [s])[1..] == shots[1..] + [s];
    }
  }

  predicate Records(e: Event, s: Shot) {
    e.Fired? && e.idx == s.idx && e.bytes == s.bytes
  }

  /** The history grew by exactly these firings. */
  ghost predicate Logged(before: seq<Event>, after: seq<Event>, shots: seq<Shot>) {
    && |after| == |before| + |shots| && before <= after
    && (forall k :: 0 <= k < |shots| ==> Records(after[|before| + k], shots[k]))
  }

  lemma LoggedAppend(before: seq<Event>, after: seq<Event>, shots: seq<Shot>, after': seq<Event>, shots': seq<Shot>)
    requires Logged(before, after, shots)
    requires (shots' == shots && after' == after) ||
      (|shots'| == |shots| + 1 && shots <= shots' && |after'| == |after| + 1 && after <= after' &&
       Records(after'[|after|], shots'[|shots|]))
    ensures Logged(before, after', shots')
  {
    forall k | 0 <= k < |shots'|
      ensures Records(after'[|before| + k], shots'[k])
    {
      if k < |shots| {
        assert shots'[k] == shots[k] && after'[|before| + k] == after[|before| + k];
      }
    }
  }

  lemma NolimitHead(q: Queues, g: Shadow, n: nat)
    requires Core(q, g, n)
    ensures q.nolimitHead == NONE <==> g.nolimit == []
  {
  }

  /** The test of flow_poll_skiplist on the first queue. */
  lemma SkipTest(q: Queues, g: Shadow, n: nat, most: int, now: int, late: bool)
    requires Core(q, g, n) && |g.order| > 0
    requires if late then Late(q, g, now) && most == g.vt + Gap(g, now) else Reach(q, g, most)
    ensures 0 <= q.head[0] < n && q.head[0] == g.order[0] && |g.due| == n
    ensures TsLe(q, q.nextTs[q.head[0]], Stamp(most, MID)) <==> !late && g.due[g.order[0]] <= most
    ensures late ==> g.due[g.order[0]] < most
  {
    hide Stamp, TsLe, Late, Reach;
    CoreFacts(q, g, n);
    SkipHead(q, g, n);
    if late {
      BeyondIff(q, g, n, now);
      LatePasses(q, g, n, now);
    } else {
      TsLeIsDueLe(q, g, n, g.order[0], most);
    }
  }

  lemma LatePasses(q: Queues, g: Shadow, n: nat, now: int)
    requires Core(q, g, n) && |g.order| > 0 && Late(q, g, now)
    ensures g.order[0] < |g.due| && g.due[g.order[0]] < g.vt + Gap(g, now)
  {
    hide Stamp, PaceInv, Nolimit;
    SkipHead(q, g, n);
  }

  lemma AtMost(q: Queues, g: Shadow, most: int)
    ensures g.vt == most ==> Reach(q, g, most)
  {
  }

  lemma Overtaken(q: Queues, g: Shadow, n: nat)
    ensures |g.order| > 0 && g.order[0] < |g.due| && g.due[g.order[0]] < g.vt ==> !Core(q, g, n)
  {
    assert |g.order| > 0 ==> g.order[0] in g.order;
  }

  /** The next poll comes in time: a gap that is not late, or nothing is paced. */
  predicate Punctual(q: Queues, g: Shadow, now: int) {
    g.rt <= now && (Late(q, g, now) ==> Unpaced(q, g))
  }

  /** Every queue waits for its due time. */
  predicate Blocked(q: Queues, g: Shadow, n: nat, now: int) {
    g.nolimit == [] && !Late(q, g, now) && Beyond(q, g, n, now)
  }

  /** One queue can send all that a 32-bit count shows; the queues of the skip list wait. */
  predicate Draining(q: Queues, g: Shadow, n: nat, now: int) {
    Single(q, g, n) && !Late(q, g, now) && Beyond(q, g, n, now)
  }

  /** When the first queue of the skip list is due, but no later than `most`. */
  function NextStop(g: Shadow, most: int): int {
    if |g.order| > 0 && g.order[0] < |g.due| then Min(g.due[g.order[0]], most) else most
  }

  /** The first queue of the list has bytes to send. */
  predicate FirstOf(q: Queues, list: seq<nat>) {
    |list| > 0 && list[0] < |q.avail| && q.avail[list[0]] > 0
  }

  /** Every queue is in the list for its rate. */
  predicate Homed(q: Queues, g: Shadow) {
    && (forall i <- g.order :: i < |q.rate| && q.rate[i] > 0)
    && (forall i <- g.nolimit :: i < |q.rate| && q.rate[i] == 0)
  }

  /** Nothing is left to do: no queue waits without limit, none of the skip list is due. */
  predicate Drained(g: Shadow) {
    g.nolimit == [] && !DueNow(g)
  }

  predicate DueNow(g: Shadow) {
    exists i <- g.order :: i < |g.due| && g.due[i] <= g.vt
  }

  /** A queue of the skip list that has lost its rate limit fires by `most` and then waits in the other list. */
  predicate StraySkip(q: Queues, g: Shadow, most: int) {
    exists i <- g.order :: i < |q.rate| == |q.avail| == |q.maxChunk| == |g.due|
      && q.rate[i] == 0 && g.due[i] <= most && q.avail[i] > q.maxChunk[i]
  }

  /** A queue of the no-limit list has got a rate at which a chunk takes no time: it fires and is due again, in the
      other list. */
  predicate StrayNolimit(q: Queues, g: Shadow) {
    exists i <- g.nolimit :: i < |q.rate| == |q.avail| == |q.maxChunk|
      && q.rate[i] > 0 && q.avail[i] > q.maxChunk[i] && Delay(q.maxChunk[i], q.rate[i]) == 0
  }

  /** Polling both lists, the given one first, leaves something to do exactly if this holds. */
  predicate Stray(q: Queues, g: Shadow, most: int) {
    if q.nolimitFirst then StraySkip(q, g, most) else StrayNolimit(q, g)
  }

  /** A poll at `now` with room for more has done all there was to do: real time is up to date, virtual time is where that
      allows, and if every queue was in the list for its rate, none waits without limit and none is due. */
  predicate Reached(q: Queues, g: Shadow, q': Queues, g': Shadow, now: int) {
    && g'.rt == now && g'.vt == g.vt + Gap(g, now)
    && (Homed(q, g) ==> Homed(q', g') && Drained(g'))
  }

  /** How far virtual time may go is still the same. */
  predicate Carried(q: Queues, g: Shadow, q': Queues, g': Shadow, now: int) {
    && g'.vt + Gap(g', now) == g.vt + Gap(g, now)
    && (Homed(q, g) ==> Homed(q', g'))
  }

  lemma ReachedCarries(q: Queues, g: Shadow, q1: Queues, g1: Shadow, q2: Queues, g2: Shadow, now: int)
    requires Carried(q, g, q1, g1, now) && Reached(q1, g1, q2, g2, now)
    ensures Reached(q, g, q2, g2, now) && Carried(q, g, q2, g2, now)
  {
    hide Homed, Drained, Stamp;
    StampAtMost(now - g2.rt);
  }

  lemma NoneStray(q: Queues, g: Shadow)
    requires g.nolimit == []
    ensures !StrayNolimit(q, g)
  {
  }

  lemma HomedNotStray(q: Queues, g: Shadow, most: int)
    requires Homed(q, g)
    ensures !Stray(q, g, most)
  {
    hide Delay;
  }

  /** A queue is in one list at most, and once. */
  lemma ListsApart(q: Queues, g: Shadow, n: nat)
    requires Core(q, g, n)
    ensures Distinct(g.order) && Distinct(g.nolimit) && forall i <- g.order :: i !in g.nolimit
  {
    hide Stamp, Chain, PaceInv, Timed;
  }

  /** The first queue of the skip list is due last of those that are not due. */
  lemma NoneDue(q: Queues, g: Shadow, n: nat, most: int)
    requires Core(q, g, n) && (g.order == [] || (g.order[0] < |g.due| && g.due[g.order[0]] > most))
    ensures !StraySkip(q, g, most) && (g.vt <= most ==> !DueNow(g))
  {
    hide Stamp, Chain, PaceInv, Timed, Nolimit, Level;
  }

  /** A queue that fired goes home. */
  lemma HomedMoves(q: Queues, g: Shadow, i: nat, q': Queues, g': Shadow)
    requires Moved(q, g, i, q', g') && Homed(q, g)
    ensures Homed(q', g')
  {
    hide Delay;
    forall j <- g'.order
      ensures j < |q'.rate| && q'.rate[j] > 0
    {
      assert j in g.order || j == i;
    }
    forall j <- g'.nolimit
      ensures j < |q'.rate| && q'.rate[j] == 0
    {
      assert j in g.nolimit || j == i;
    }
  }

  /** One queue of the no-limit list is served. */
  lemma NolimitTurnMoves(q: Queues, g: Shadow, i: nat, q1: Queues, g1: Shadow, q2: Queues, g2: Shadow)
    requires |g.nolimit| > 0 && i == g.nolimit[0] && g1 == g.(nolimit := g.nolimit[1..]) && Distinct(g.nolimit)
    requires q1.rate == q.rate && q1.maxChunk == q.maxChunk && q1.avail == q.avail && i !in g.order
    requires Moved(q1, g1, i, q2, g2)
    ensures DueNow(g2) || StrayNolimit(q2, g2) <==> DueNow(g) || StrayNolimit(q, g)
    ensures forall most :: StraySkip(q2, g2, most) <==> StraySkip(q, g, most)
    ensures Homed(q, g) ==> Homed(q2, g2)
  {
    hide Delay;
    assert g.nolimit == [i] + g1.nolimit;
    assert i !in g1.nolimit;
    if Homed(q, g) {
      forall j <- g1.nolimit
        ensures j < |q.rate| && q.rate[j] == 0
      {
        assert j in g.nolimit;
      }
      HomedMoves(q1, g1, i, q2, g2);
    }
  }

  /** One queue of the skip list that is due by `most` is served. */
  lemma SkipTurnMoves(q: Queues, g: Shadow, i: nat, q1: Queues, g1: Shadow, q2: Queues, g2: Shadow, most: int)
    requires |g.order| > 0 && i == g.order[0] && g1.nolimit == g.nolimit && g1.order == g.order[1..] && Distinct(g.order)
    requires g1.due == g.due && i < |g.due| && g.due[i] <= most && i !in g.nolimit
    requires q1.rate == q.rate && q1.maxChunk == q.maxChunk && q1.avail == q.avail
    requires Moved(q1, g1, i, q2, g2)
    ensures g2.nolimit != [] || StraySkip(q2, g2, most) <==> g.nolimit != [] || StraySkip(q, g, most)
    ensures StrayNolimit(q2, g2) <==> StrayNolimit(q, g)
    ensures Homed(q, g) ==> Homed(q2, g2)
  {
    hide Delay;
    assert g.order == [i] + g1.order;
    assert i !in g1.order;
    if Homed(q, g) {
      forall j <- g1.order
        ensures j < |q.rate| && q.rate[j] > 0
      {
        assert j in g.order;
      }
      HomedMoves(q1, g1, i, q2, g2);
    }
  }

  /** One queue waits, for its pace, and has more than a chunk. */
  predicate Alone(q: Queues, g: Shadow, n: nat) {
    && |g.order| == 1 && g.nolimit == [] && g.order[0] < n == |q.avail| == |q.maxChunk| == |q.rate| == |g.due|
    && q.rate[g.order[0]] > 0 && q.avail[g.order[0]] > q.maxChunk[g.order[0]]
  }

  /** It has sent a chunk, and waits for the time that takes. */
  predicate Spent(q: Queues, g: Shadow, q': Queues, g': Shadow) {
    && |g.order| == 1 && g.order[0] < |q.avail| == |q.maxChunk| == |q.rate| == |g'.due|
    && q'.rate == q.rate && q'.maxChunk == q.maxChunk && g'.order == g.order && g'.nolimit == []
    && var i := g.order[0];
       && q.rate[i] > 0 && q.avail[i] > q.maxChunk[i] && q'.avail == q.avail[i := q.avail[i] - q.maxChunk[i]]
       && i < |g.due| && g'.due[i] == g.due[i] + Delay(q.maxChunk[i], q.rate[i])
  }

  predicate Waits(q: Queues, g: Shadow, n: nat) {
    |g.order| > 0 && g.order[0] < |g.due| == n && g.due[g.order[0]] > g.vt
  }

  /** That queue is due, but will not be again so soon. */
  predicate Starting(q: Queues, g: Shadow, n: nat, now: int) {
    && Alone(q, g, n) && !Late(q, g, now) && g.due[g.order[0]] == g.vt
    && Gap(g, now) < Delay(q.maxChunk[g.order[0]], q.rate[g.order[0]])
  }

  lemma StrayStill(q: Queues, g: Shadow, q': Queues, g': Shadow)
    requires q'.rate == q.rate && q'.maxChunk == q.maxChunk && q'.avail == q.avail
    requires g'.order == g.order && g'.nolimit == g.nolimit && g'.due == g.due
    ensures forall most :: StraySkip(q', g', most) <==> StraySkip(q, g, most)
    ensures StrayNolimit(q', g') <==> StrayNolimit(q, g)
    ensures Homed(q', g') <==> Homed(q, g)
  {
    hide Delay;
  }

  lemma SpentStill(q: Queues, g: Shadow, q1: Queues, g1: Shadow, q2: Queues, g2: Shadow)
    requires q2 == q1.(tsVirtual := q2.tsVirtual, tsReal := q2.tsReal) && g2 == g1.(vt := g2.vt, rt := g2.rt)
    ensures Spent(q, g, q1, g1) ==> Spent(q, g, q2, g2)
  {
  }

  /** It fires, and is then not due. */
  lemma StartingTest(q: Queues, g: Shadow, n: nat, now: int, q': Queues, g': Shadow)
    requires Starting(q, g, n, now) && ((q' == q && g' == g) || Spent(q, g, q', g'))
    ensures Alone(q, g, n) && !Late(q, g, now) && |g'.order| == 1 && g'.order[0] < |g'.due|
    ensures q' == q && g' == g ==> g'.due[g'.order[0]] <= g.vt + Gap(g, now)
    ensures Spent(q, g, q', g') ==> g'.due[g'.order[0]] > g.vt + Gap(g, now)
  {
  }

  lemma SomethingLeft(q: Queues, g: Shadow, n: nat)
    requires Core(q, g, n) && Busy(q, n) && |g.order| > 0
    ensures Sum(q.avail) > 0
  {
    hide Stamp, Sum, PaceInv, Nolimit;
    SkipHead(q, g, n);
    SumPositive(q.avail, g.order[0]);
  }

  lemma NotListed(q: Queues, g: Shadow, n: nat, i: nat)
    requires Core(q, g, n) && i < n && !q.inSkip[i]
    ensures i !in g.order
  {
  }

  /** Nothing is paced: the skip list is empty and polling the no-limit list will not add to it. */
  predicate Unpaced(q: Queues, g: Shadow) {
    |g.order| == 0 && forall i <- g.nolimit :: i < |q.rate| && q.rate[i] == 0
  }

  /** One queue waits without rate limit, its bytes fit one chunk, and a 32-bit count of all others is zero. */
  predicate Single(q: Queues, g: Shadow, n: nat) {
    && |g.nolimit| == 1 && g.nolimit[0] < n == |q.avail| == |q.maxChunk|
    && 0 < q.avail[g.nolimit[0]] <= q.maxChunk[g.nolimit[0]] && U32(Sum(q.avail) - q.avail[g.nolimit[0]]) == 0
  }

  lemma CoreFacts(q: Queues, g: Shadow, n: nat)
    requires Core(q, g, n)
    ensures Shape(q, n) && |g.due| == n && q.tsVirtual == Stamp(g.vt, MID)
  {
  }

  predicate NoneLostBut(q: Queues, n: nat, i: nat)
    requires Shape(q, n)
  {
    forall j :: 0 <= j < n && j != i ==> q.avail[j] > 0 ==> q.inSkip[j] || q.inNolimit[j]
  }

  /** A queue about to fire is not ahead of its pace. */
  ghost predicate Ready(q: Queues, g: Shadow, n: nat, i: nat)
    requires Shape(q, n) && |g.due| == n && i < n
  {
    var k := LastEvent(g.log, i);
    0 <= k < |g.log| && g.log[k].Fired? && q.rate[i] > 0 ==> g.due[i] <= g.vt
  }

  ghost function FiredShadow(q: Queues, g: Shadow, n: nat, i: nat, bytes: nat): Shadow
    requires Shape(q, n) && |g.due| == n && i < n
  {
    g.(due := if q.rate[i] > 0 then g.due[i := g.vt + Delay(bytes, q.rate[i])] else g.due,
       log := g.log + [Fired(i, g.vt, bytes, q.rate[i])])
  }

  /** Recording a firing keeps the invariant; the queue is in no list at that point. */
  lemma FiredCore(q: Queues, g: Shadow, n: nat, q': Queues, i: nat, bytes: nat)
    requires Core(q, g, n) && i < n && !q.inSkip[i] && !q.inNolimit[i] && Ready(q, g, n, i)
    requires bytes <= q.maxChunk[i] && |q'.avail| == n
    requires q' == q.(avail := q'.avail, nextTs := if q.rate[i] > 0
                        then q.nextTs[i := Stamp(q.tsVirtual + Delay(bytes, q.rate[i]), MID)] else q.nextTs)
    ensures Core(q', FiredShadow(q', g, n, i, bytes), n)
  {
    hide Stamp, Delay, Level, Chain, LastEvent, Paced, Pacing;
    var g' := FiredShadow(q', g, n, i, bytes);
    FiredPaced(q, g, n, i, bytes);
    forall j | 0 <= j < n
      ensures Pacing(q', g', n, j)
    {
      FiredPacing(q, g, n, q', i, bytes, j);
    }
  }

  /** A queue that fired `bytes` at this rate is back in the skip list, due when their time has passed. */
  predicate Again(g: Shadow, g': Shadow, i: nat, bytes: nat, rate: nat)
    requires rate > 0
  {
    && g'.nolimit == g.nolimit && (g.order == [] ==> g'.order == [i])
    && i < |g'.due| && g'.due[i] == g'.vt + Delay(bytes, rate)
  }

  /** What firing queue i, in no list, makes of the lists: with bytes left it is in the list for its rate. */
  ghost predicate Moved(q: Queues, g: Shadow, i: nat, q': Queues, g': Shadow) {
    && i < |q.rate| == |q.maxChunk| == |q.avail| == |g.due| == |g'.due|
    && q'.rate == q.rate && q'.maxChunk == q.maxChunk
    && q'.avail == q.avail[i := q.avail[i] - Min(q.avail[i], q.maxChunk[i])]
    && g'.vt == g.vt && (forall j :: 0 <= j < |g.due| && j != i ==> g'.due[j] == g.due[j])
    && if q.avail[i] <= q.maxChunk[i] then g'.order == g.order && g'.nolimit == g.nolimit
       else if q.rate[i] == 0 then g'.order == g.order && g'.nolimit == g.nolimit + [i]
       else g'.nolimit == g.nolimit && (forall j :: j in g'.order <==> j in g.order || j == i)
            && g'.due[i] == g.vt + Delay(q.maxChunk[i], q.rate[i])
  }

  lemma FiredMoves(q: Queues, g: Shadow, n: nat, i: nat, bytes: nat, q1: Queues, q2: Queues, g2: Shadow)
    requires Shape(q, n) && Shape(q1, n) && |g.due| == |g2.due| == n && i < n && q.avail[i] > 0
    requires bytes == Min(q.avail[i], q.maxChunk[i]) && q1.avail == q.avail[i := q.avail[i] - bytes]
    requires q1.rate == q.rate && q1.maxChunk == q.maxChunk && q2.rate == q.rate && q2.maxChunk == q.maxChunk
    requires q2.avail == q1.avail && g2.vt == g.vt
    requires var g1 := FiredShadow(q1, g, n, i, bytes);
      && (q.rate[i] > 0 ==> q1.nextTs[i] == Stamp(g1.due[i], MID) && g1.due[i] <= g.vt + Delay(q.maxChunk[i], q.rate[i]))
      && if q1.avail[i] == 0 then g2 == g1
         else if q.rate[i] == 0 then g2 == g1.(nolimit := g1.nolimit + [i])
         else Entered(q1, g1, i, g2)
    ensures Moved(q, g, i, q2, g2)
    ensures q2.avail[i] > 0 && q2.rate[i] > 0 ==> Again(g, g2, i, bytes, q2.rate[i])
  {
    hide Stamp, Delay;
  }

  lemma FiredDue(q: Queues, g: Shadow, n: nat, i: nat, bytes: nat)
    requires Shape(q, n) && |g.due| == n && i < n && Core(q, FiredShadow(q, g, n, i, bytes), n) && !q.inSkip[i]
    ensures q.rate[i] > 0 ==> var g' := FiredShadow(q, g, n, i, bytes);
      q.nextTs[i] == Stamp(g'.due[i], MID) && g'.due[i] <= g.vt + Delay(q.maxChunk[i], q.rate[i])
  {
    hide Stamp, Delay, Level, Chain, Paced;
    assert Pacing(q, FiredShadow(q, g, n, i, bytes), n, i);
  }

  /** The history stays paced. */
  lemma FiredPaced(q: Queues, g: Shadow, n: nat, i: nat, bytes: nat)
    requires Shape(q, n) && |g.due| == n && PaceInv(q, g, n) && i < n && Ready(q, g, n, i)
    ensures Paced(g.log + [Fired(i, g.vt, bytes, q.rate[i])])
  {
    hide Delay, Spaced, LastEvent;
    LastEventIs(g.log, i);
    assert Pacing(q, g, n, i);
    var log' := g.log + [Fired(i, g.vt, bytes, q.rate[i])];
    forall a: nat, b: nat | Consecutive(log', a, b) && log'[b].rate > 0
      ensures Spaced(log'[a].bytes, log'[b].rate, log'[b].vt - log'[a].vt)
    {
      DelaySpaced(log'[a].bytes, log'[b].rate, log'[b].vt - log'[a].vt);
      assert log'[a] == g.log[a];
      if b < |g.log| {
        forall k | a < k < b
          ensures g.log[k].idx != g.log[a].idx
        {
          assert log'[k] == g.log[k];
        }
        assert Consecutive(g.log, a, b);
      } else {
        var k := LastEvent(g.log, i);
        assert 0 <= k ==> log'[k] == g.log[k];
        assert k == a;
      }
    }
  }

  lemma FiredPacing(q: Queues, g: Shadow, n: nat, q': Queues, i: nat, bytes: nat, j: nat)
    requires Core(q, g, n) && i < n && !q.inSkip[i] && !q.inNolimit[i]
    requires bytes <= q.maxChunk[i] && |q'.avail| == n && j < n
    requires q' == q.(avail := q'.avail, nextTs := if q.rate[i] > 0
                        then q.nextTs[i := Stamp(q.tsVirtual + Delay(bytes, q.rate[i]), MID)] else q.nextTs)
    requires Shape(q', n)
    ensures Pacing(q', FiredShadow(q', g, n, i, bytes), n, j)
  {
    hide Stamp, Delay, Level, Chain, Paced, Sorted;
    assert Pacing(q, g, n, j);
    var e := Fired(i, g.vt, bytes, q.rate[i]);
    assert (g.log + [e])[..|g.log|] == g.log;
    LastEventIs(g.log, j);
    if q.rate[i] > 0 {
      StampAbsorb(g.vt, Delay(bytes, q.rate[i]), MID);
      DelayMonotone(bytes, q.maxChunk[i], q.rate[i]);
    }
  }

  lemma PredsInRange(g: Shadow, d: int, n: nat)
    requires Distinct(g.order) && Sorted(g.order, g.due) && |g.height| == |g.due| == n
    ensures Split(g, d) <= |g.order|
    ensures forall l :: 0 <= l < LEVELS ==> -1 <= Pred(g, d, l) < n
  {
    PredInOrder(g, d, 0);
    forall l | 0 <= l < LEVELS
      ensures -1 <= Pred(g, d, l) < n
    {
      PredInOrder(g, d, l);
    }
  }

  lemma NolimitAppended(q: Queues, g: Shadow, n: nat, q': Queues, i: nat)
    requires Core(q, g, n) && i < n && !q.inSkip[i] && !q.inNolimit[i] && q.rate[i] == 0
    requires |q'.next| == LEVELS && q'.next == q.next[0 := q'.next[0]]
    requires q'.next[0] == if |g.nolimit| == 0 then q.next[0][i := NONE] else q.next[0][i := NONE][Last(g.nolimit) := i]
    requires q' == q.(next := q'.next, inNolimit := q.inNolimit[i := true],
                      nolimitHead := if |g.nolimit| == 0 then i else q.nolimitHead, nolimitTail := i)
    ensures Core(q', g.(nolimit := g.nolimit + [i]), n)
  {
    NolimitLists(q, g, n, q', i);
    SamePace(q, g, n, q', g.(nolimit := g.nolimit + [i]));
  }

  lemma NolimitLists(q: Queues, g: Shadow, n: nat, q': Queues, i: nat)
    requires Core(q, g, n) && i < n && !q.inSkip[i] && !q.inNolimit[i]
    requires |q'.next| == LEVELS && q'.next == q.next[0 := q'.next[0]]
    requires q'.next[0] == if |g.nolimit| == 0 then q.next[0][i := NONE] else q.next[0][i := NONE][Last(g.nolimit) := i]
    requires q' == q.(next := q'.next, inNolimit := q.inNolimit[i := true],
                      nolimitHead := if |g.nolimit| == 0 then i else q.nolimitHead, nolimitTail := i)
    ensures var g' := g.(nolimit := g.nolimit + [i]);
      Shape(q', n) && Linked(q', g', n) && Timed(q', g', n) && Nolimit(q', g', n)
  {
    hide Stamp, Delay, PaceInv, Level, Sorted, Chain;
    NolimitChains(q, g, n, q', i);
    var g' := g.(nolimit := g.nolimit + [i]);
    forall l | 0 <= l < LEVELS
      ensures |q'.next[l]| == n && Chain(q'.next[l], q'.head[l], Level(g.order, g.height, l))
    {
      if l > 0 {
        assert q'.next[l] == q.next[l];
      }
    }
    assert Shape(q', n);
    assert Linked(q', g', n);
  }

  lemma NolimitChains(q: Queues, g: Shadow, n: nat, q': Queues, i: nat)
    requires Core(q, g, n) && i < n && !q.inSkip[i] && !q.inNolimit[i]
    requires |q'.next| == LEVELS && q'.next == q.next[0 := q'.next[0]]
    requires q'.next[0] == if |g.nolimit| == 0 then q.next[0][i := NONE] else q.next[0][i := NONE][Last(g.nolimit) := i]
    requires q' == q.(next := q'.next, inNolimit := q.inNolimit[i := true],
                      nolimitHead := if |g.nolimit| == 0 then i else q.nolimitHead, nolimitTail := i)
    ensures |q'.next[0]| == n
    ensures Chain(q'.next[0], q'.nolimitHead, g.nolimit + [i]) && Distinct(g.nolimit + [i])
    ensures Chain(q'.next[0], q'.head[0], Level(g.order, g.height, 0))
  {
    hide Stamp, Delay, PaceInv, Level, Sorted, Timed;
    ChainAppend(q.next[0], q.nolimitHead, g.nolimit, i, q'.next[0], q'.nolimitHead);
    LevelMembers(g.order, g.height, 0);
    assert |g.nolimit| > 0 ==> Last(g.nolimit) in g.nolimit;
    ChainFrame(q.next[0], q.head[0], Level(g.order, g.height, 0), q'.next[0]);
  }

  /** Pacing only looks at due times, timestamps, rates, chunk sizes, membership and history; queues
      without a rate may also change lists. */
  lemma SamePace(q: Queues, g: Shadow, n: nat, q': Queues, g': Shadow)
    requires Shape(q, n) && |g.due| == n && PaceInv(q, g, n)
    requires Shape(q', n) && q'.rate == q.rate && q'.maxChunk == q.maxChunk && q'.nextTs == q.nextTs
    requires g'.due == g.due && g'.log == g.log && g'.vt >= g.vt
    requires forall i :: 0 <= i < n ==> q'.inSkip[i] == q.inSkip[i]
    requires forall i :: 0 <= i < n && q.rate[i] > 0 ==> q'.inNolimit[i] == q.inNolimit[i]
    ensures PaceInv(q', g', n)
  {
    hide Stamp, Delay, Paced, LastEvent;
    forall j | 0 <= j < n
      ensures Pacing(q', g', n, j)
    {
      assert Pacing(q, g, n, j);
    }
  }

  // ---- Taking queues off the lists, and time ---------------------------------------------

  ghost function PoppedNolimit(q: Queues): Queues
    requires 0 <= q.nolimitHead < |q.inNolimit| && |q.next| > 0 && q.nolimitHead < |q.next[0]|
  {
    var i := q.nolimitHead;
    q.(nolimitHead := q.next[0][i], inNolimit := q.inNolimit[i := false],
       nolimitTail := if q.next[0][i] == NONE then NONE else q.nolimitTail)
  }

  lemma PopNolimitCore(q: Queues, g: Shadow, n: nat)
    requires Core(q, g, n) && |g.nolimit| > 0
    ensures 0 <= q.nolimitHead < n && q.nolimitHead == g.nolimit[0]
    ensures Core(PoppedNolimit(q), g.(nolimit := g.nolimit[1..]), n)
    ensures Ready(PoppedNolimit(q), g.(nolimit := g.nolimit[1..]), n, q.nolimitHead)
    ensures !PoppedNolimit(q).inSkip[q.nolimitHead]
  {
    hide Stamp, Delay, Level, LastEvent, Sorted, Paced, Chronological, Chain, Distinct;
    PopNolimitLists(q, g, n);
    var i := g.nolimit[0];
    assert Pacing(q, g, n, i);
    var q', g' := PoppedNolimit(q), g.(nolimit := g.nolimit[1..]);
    forall j | 0 <= j < n
      ensures Pacing(q', g', n, j)
    {
      assert Pacing(q, g, n, j);
    }
  }

  lemma PopNolimitLists(q: Queues, g: Shadow, n: nat)
    requires Shape(q, n) && Nolimit(q, g, n) && |g.nolimit| > 0
    ensures 0 <= q.nolimitHead < n && q.nolimitHead == g.nolimit[0] && q.inNolimit[q.nolimitHead]
    ensures Nolimit(PoppedNolimit(q), g.(nolimit := g.nolimit[1..]), n) && Shape(PoppedNolimit(q), n)
  {
    hide Delay;
    ChainPop(q.next[0], q.nolimitHead, g.nolimit);
    var i := g.nolimit[0];
    assert i in g.nolimit;
    OthersRemain(g.nolimit);
    hide Chain, Distinct;
  }

  lemma OthersRemain(s: seq<nat>)
    requires Distinct(s) && |s| > 0
    ensures forall j :: j in s[1..] <==> j in s && j != s[0]
  {
    assert s == [s[0]] + s[1..];
  }

  /** Virtual time may advance as long as it passes no listed queue. */
  lemma AdvanceTime(q: Queues, g: Shadow, n: nat, v: int)
    requires Core(q, g, n) && g.vt <= v
    requires |g.order| > 0 ==> v <= g.due[g.order[0]]
    ensures Core(q.(tsVirtual := Stamp(v, MID)), g.(vt := v), n)
  {
    hide Stamp, Delay, Level, LastEvent, Paced, Chain;
    var q', g' := q.(tsVirtual := Stamp(v, MID)), g.(vt := v);
    SamePace(q, g, n, q', g');
  }

  /** The first queue heads exactly the levels up to its height. */
  lemma FirstHeads(q: Queues, g: Shadow, n: nat, l: nat)
    requires Shape(q, n) && Linked(q, g, n) && |g.order| > 0 && l < LEVELS
    ensures g.order[0] < n && q.head[0] == g.order[0]
    ensures q.head[l] == g.order[0] <==> g.height[g.order[0]] >= l
    ensures g.height[g.order[0]] >= l ==>
      Chain(q.next[l], q.next[l][g.order[0]], Level(g.order[1..], g.height, l))
    ensures g.height[g.order[0]] < l ==> Chain(q.next[l], q.head[l], Level(g.order[1..], g.height, l))
  {
    var i := g.order[0];
    var list := Level(g.order, g.height, l);
    assert i in g.order;
    assert Chain(q.next[l], q.head[l], list);
    assert Chain(q.next[0], q.head[0], Level(g.order, g.height, 0));
    LevelMembers(g.order[1..], g.height, l);
    assert i !in g.order[1..];
    if g.height[i] >= l {
      ChainPop(q.next[l], q.head[l], list);
      assert list[1..] == Level(g.order[1..], g.height, l);
    }
  }

  /** Queue i, first in the skip list, has been unlinked from the levels it heads. */
  predicate SkipPopped(q: Queues, q': Queues, i: nat)
    requires i < |q.inSkip|
  {
    && |q'.head| == |q.head| == |q.next| == LEVELS
    && (forall l :: 0 <= l < LEVELS ==> i < |q.next[l]|)
    && (forall l :: 0 <= l < LEVELS ==> q'.head[l] == if q.head[l] == i then q.next[l][i] else q.head[l])
    && q' == q.(head := q'.head, inSkip := q.inSkip[i := false])
  }

  lemma PopSkipLinked(q: Queues, g: Shadow, n: nat, q': Queues)
    requires Core(q, g, n) && |g.order| > 0 && g.order[0] < n && SkipPopped(q, q', g.order[0])
    ensures Shape(q', n)
    ensures var i := g.order[0];
      && q.nextTs[i] < 2 * MID && Shape(q'.(tsVirtual := q.nextTs[i]), n)
      && Linked(q'.(tsVirtual := q.nextTs[i]), g.(order := g.order[1..], vt := g.due[i]), n)
  {
    hide Stamp, Delay, Level, PaceInv, Timed, Nolimit, Chain;
    forall l | 0 <= l < LEVELS
      ensures Chain(q'.next[l], q'.head[l], Level(g.order[1..], g.height, l))
    {
      FirstHeads(q, g, n, l);
    }
    assert g.order == [g.order[0]] + g.order[1..];
  }

  /** Taking the first queue off the skip list and moving virtual time to it: it is ready to fire. */
  lemma PopSkipCore(q: Queues, g: Shadow, n: nat, q': Queues)
    requires Core(q, g, n) && |g.order| > 0 && g.order[0] < n && SkipPopped(q, q', g.order[0])
    ensures g.vt <= g.due[g.order[0]] && q.nextTs[g.order[0]] == Stamp(g.due[g.order[0]], MID)
    ensures var i, g' := g.order[0], g.(order := g.order[1..], vt := g.due[g.order[0]]);
      Core(q'.(tsVirtual := q.nextTs[i]), g', n) && Ready(q'.(tsVirtual := q.nextTs[i]), g', n, i)
  {
    hide Stamp, Delay, Level, LastEvent, Paced, Chain, Linked, Timed, PaceInv, Ready;
    PopSkipLinked(q, g, n, q');
    PopSkipTimed(q, g, n, q');
    PopSkipPace(q, g, n, q');
  }

  lemma PopSkipTimed(q: Queues, g: Shadow, n: nat, q': Queues)
    requires Core(q, g, n) && |g.order| > 0 && g.order[0] < n && SkipPopped(q, q', g.order[0]) && Shape(q', n)
    ensures g.vt <= g.due[g.order[0]] && q.nextTs[g.order[0]] == Stamp(g.due[g.order[0]], MID)
    ensures Timed(q'.(tsVirtual := q.nextTs[g.order[0]]), g.(order := g.order[1..], vt := g.due[g.order[0]]), n)
  {
    hide Stamp, Delay, Level, PaceInv, Chain, Nolimit, Distinct;
    var i := g.order[0];
    assert i in g.order;
    assert g.order == [i] + g.order[1..];
    forall j | 0 <= j < n && j in g.order[1..]
      ensures j in g.order && g.due[i] <= g.due[j]
    {
      var k :| 0 <= k < |g.order| && g.order[k] == j;
    }
  }

  lemma PopSkipPace(q: Queues, g: Shadow, n: nat, q': Queues)
    requires Core(q, g, n) && |g.order| > 0 && g.order[0] < n && SkipPopped(q, q', g.order[0]) && Shape(q', n)
    requires g.vt <= g.due[g.order[0]] && q.nextTs[g.order[0]] == Stamp(g.due[g.order[0]], MID)
    ensures var i, g' := g.order[0], g.(order := g.order[1..], vt := g.due[g.order[0]]);
      && PaceInv(q'.(tsVirtual := q.nextTs[i]), g', n) && Ready(q'.(tsVirtual := q.nextTs[i]), g', n, i)
      && Nolimit(q'.(tsVirtual := q.nextTs[i]), g', n)
  {
    hide Stamp, Delay, Level, LastEvent, Paced, Chain, Distinct, Timed;
    var i := g.order[0];
    assert i in g.order && q.inSkip[i];
    var q2, g2 := q'.(tsVirtual := q.nextTs[i]), g.(order := g.order[1..], vt := g.due[i]);
    forall j | 0 <= j < n
      ensures Pacing(q2, g2, n, j)
    {
      assert Pacing(q, g, n, j);
    }
  }
}
