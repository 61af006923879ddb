/** The timer manager (lib/utils/timeout.c) as a stable priority queue.

    Timestamps have 28 bits of microseconds. `deadline` is the absolute expiry time a timestamp
    stands for and `serial` the position of the arming in the run; both are ghost. */
module TimeoutManager {
  import opened Arith
  import opened LinkedList
  import opened Timestamps

  /** struct timeout, apart from its list pointers: expiry timestamp and type. */
  datatype Timer = Timer(ts: nat, kind: nat, ghost deadline: int, ghost serial: nat)

  type Timeout = Node<Timer>

  const MIDDLE: nat := 0x800_0000
  const MAX_TIMEOUTS: nat := 64

  /** Earlier deadline first, and among equal deadlines the one armed first. */
  ghost predicate Earlier(a: Timeout, b: Timeout)
    reads a`data, b`data
  {
    a.data.deadline < b.data.deadline || (a.data.deadline == b.data.deadline && a.data.serial < b.data.serial)
  }

  ghost predicate Ordered(q: seq<Timeout>)
    reads (set t | t in q)`data
  {
    forall i, j :: 0 <= i < j < |q| ==> Earlier(q[i], q[j])
  }

  ghost predicate Stamped(q: seq<Timeout>, armings: nat)
    reads (set t | t in q)`data
  {
    forall t <- q :: t.data.ts == Stamp(t.data.deadline, MIDDLE) && t.data.serial < armings
  }

  /** Every deadline of q lies in lo .. hi - 1. */
  ghost predicate Between(q: seq<Timeout>, lo: int, hi: int)
    reads (set t | t in q)`data
  {
    forall t <- q :: lo <= t.data.deadline < hi
  }

  ghost predicate DueBy(q: seq<Timeout>, now: int)
    reads (set t | t in q)`data
  {
    forall t <- q :: t.data.deadline <= now
  }

  /** Once the first pending timer is not due, none is. */
  lemma RestLater(a: seq<Timeout>, b: seq<Timeout>, time: int)
    requires Ordered(a + b) && (|b| > 0 ==> time < b[0].data.deadline)
    ensures forall t <- b :: time < t.data.deadline
  {
    forall i | 0 <= i < |b| ensures time < b[i].data.deadline {
      if i > 0 {
        var q := a + b;
        assert q[|a|] == b[0] && q[|a| + i] == b[i];
        assert Earlier(q[|a|], q[|a| + i]);
      }
    }
  }

  /** Position c separates the deadlines up to dl from the later ones. */
  ghost predicate Splits(q: seq<Timeout>, c: nat, dl: int)
    reads (set t | t in q)`data
  {
    && c <= |q| && (forall i :: 0 <= i < c ==> q[i].data.deadline <= dl)
    && (forall i :: c <= i < |q| ==> dl < q[i].data.deadline)
  }

  lemma SplitsFound(q: seq<Timeout>, c: nat, dl: int)
    requires c <= |q| && Ordered(q) && (forall i :: c <= i < |q| ==> dl < q[i].data.deadline)
    requires c > 0 ==> q[c - 1].data.deadline <= dl
    ensures Splits(q, c, dl)
  {
    forall i | 0 <= i < c ensures q[i].data.deadline <= dl {
      assert i < c - 1 ==> Earlier(q[i], q[c - 1]);
    }
  }

  /** A timer newly armed goes behind everything not later than it. */
  lemma InsertedOrdered(q: seq<Timeout>, c: nat, t: Timeout)
    requires c <= |q| && Ordered(q) && Splits(q, c, t.data.deadline) && Stamped(q, t.data.serial)
    ensures Ordered(Inserted(q, c, t))
  {
    var r := Inserted(q, c, t);
    forall i, j | 0 <= i < j < |r| ensures Earlier(r[i], r[j]) {
      assert i != c && j != c ==> Earlier(q[Before(c, i)], q[Before(c, j)]);
    }
  }

  lemma SplitsBehind(a: seq<Timeout>, b: seq<Timeout>, c: nat, dl: int)
    requires Splits(b, c, dl) && DueBy(a, dl)
    ensures Splits(a + b, |a| + c, dl)
  {
  }

  lemma SplitsBound(q: seq<Timeout>, c: nat, dl: int)
    requires Splits(q, c, dl)
    ensures c <= |q|
  {
  }

  lemma OrderedPart(a: seq<Timeout>, b: seq<Timeout>, armings: nat)
    requires Ordered(a + b) && Stamped(a + b, armings)
    ensures Ordered(b) && Stamped(b, armings)
  {
    hide Stamp;
    var q := a + b;
    assert forall i :: 0 <= i < |b| ==> b[i] == q[|a| + i];
  }

  lemma TailTimed(a: seq<Timeout>, b: seq<Timeout>, armings: nat)
    requires |a| > 0 && Ordered(a + b) && Stamped(a + b, armings)
    ensures Ordered(a[1..] + b) && Stamped(a[1..] + b, armings)
  {
    hide Stamp;
    assert a[1..] + b == (a + b)[1..];
  }

  lemma InsertedMembers(q: seq<Timeout>, c: nat, t: Timeout)
    requires c <= |q|
    ensures forall x :: x in Inserted(q, c, t) <==> x in q || x == t
  {
    var r := Inserted(q, c, t);
    assert r[c] == t && forall i :: 0 <= i < |q| ==> r[Past(c, i)] == q[i];
  }

  lemma InsertedStamped(q: seq<Timeout>, c: nat, t: Timeout, armings: nat)
    requires c <= |q| && Stamped(q, t.data.serial) && t.data.ts == Stamp(t.data.deadline, MIDDLE) && t.data.serial < armings
    ensures Stamped(Inserted(q, c, t), armings)
  {
    hide Stamp;
  }

  lemma InsertedBetween(q: seq<Timeout>, c: nat, t: Timeout, lo: int, hi: int)
    requires c <= |q| && Between(q, lo, hi) && lo <= t.data.deadline < hi
    ensures Between(Inserted(q, c, t), lo, hi)
  {
  }

  lemma InsertedBehind(a: seq<Timeout>, b: seq<Timeout>, c: nat, t: Timeout)
    requires c <= |b|
    ensures Inserted(a + b, |a| + c, t) == a + Inserted(b, c, t)
  {
  }

  lemma RemovedOrdered(q: seq<Timeout>, c: nat)
    requires c < |q| && Ordered(q)
    ensures Ordered(Removed(q, c))
  {
    var r := Removed(q, c);
    forall i, j | 0 <= i < j < |r| ensures Earlier(r[i], r[j]) {
      assert Earlier(q[Past(c, i)], q[Past(c, j)]);
    }
  }

  lemma RemovedMembers(q: seq<Timeout>, c: nat)
    requires c < |q|
    ensures forall t <- Removed(q, c) :: t in q
  {
  }

  lemma RemovedAside(a: seq<Timeout>, b: seq<Timeout>, c: nat)
    ensures c < |a| ==> Removed(a + b, c) == Removed(a, c) + b
    ensures |a| <= c < |a| + |b| ==> Removed(a + b, c) == a + Removed(b, c - |a|)
  {
  }

  lemma DueAppend(q: seq<Timeout>, t: Timeout, now: int)
    requires DueBy(q, now) && t.data.deadline <= now
    ensures DueBy(q + [t], now)
  {
  }

  lemma DueNone(now: int)
    ensures DueBy([], now)
  {
  }

  lemma BetweenTail(q: seq<Timeout>, lo: int, hi: int)
    requires |q| > 0 && Between(q, lo, hi)
    ensures Between(q[1..], lo, hi)
  {
  }

  /** struct timeout_manager; `now` is the latest time it was called with. */
  class Manager {
    const timeouts: List<Timer>
    const due: List<Timer>
    ghost var now: int
    ghost var armings: nat

    /** All armed timers in the order they will fire. */
    ghost function Queue(): seq<Timeout>
      reads timeouts`nodes, due`nodes
    {
      due.nodes + timeouts.nodes
    }

    ghost predicate Linked()
      reads timeouts, due, timeouts.nodes, due.nodes
    {
      timeouts != due && timeouts.Valid() && due.Valid() && timeouts.Members() !! due.Members()
    }

    ghost predicate Timed()
      reads this, timeouts`nodes, due`nodes, timeouts.nodes, due.nodes
    {
      && Ordered(Queue()) && Stamped(Queue(), armings)
      && DueBy(due.nodes, now) && Between(timeouts.nodes, now, now + MIDDLE)
    }

    ghost predicate Valid()
      reads this, timeouts, due, timeouts.nodes, due.nodes
    {
      Linked() && Timed()
    }

    constructor (ghost start: int)
      ensures Valid() && Queue() == [] && now == start && fresh(timeouts) && fresh(due)
    {
      timeouts := new List<Timer>();
      due := new List<Timer>();
      now, armings := start, 0;
    }

    /** In the middle of moving due timers over, at a time not half the range past the deadlines. */
    ghost predicate Moving(time: int)
      reads `armings, timeouts, due, timeouts.nodes, due.nodes
    {
      && Linked() && Ordered(Queue()) && Stamped(Queue(), armings)
      && DueBy(due.nodes, time) && Between(timeouts.nodes, time - MIDDLE + 1, time + MIDDLE)
    }

    /** Whether there is a pending timer that is due: the 28-bit comparison is that of the times. */
    method FirstDue(ghost time: int, cur: nat) returns (yes: bool)
      requires Moving(time) && cur == Stamp(time, MIDDLE)
      ensures yes <==> |timeouts.nodes| > 0 && timeouts.nodes[0].data.deadline <= time
    {
      hide Stamp, Ordered;
      if timeouts.first == null {
        yes := false;
      } else {
        assert timeouts.first in Queue();
        RelTimeAbsolute(time, timeouts.nodes[0].data.deadline, MIDDLE);
        yes := RelTime(cur, timeouts.first.data.ts, MIDDLE) <= 0;
      }
    }

    /** Move the first pending timer to the end of the due list. */
    method MoveOne(ghost time: int)
      requires Moving(time) && |timeouts.nodes| > 0 && timeouts.nodes[0].data.deadline <= time
      modifies timeouts, due, timeouts.Members()`next, timeouts.Members()`prev, due.Members()`next
      ensures Moving(time) && Queue() == old(Queue())
      ensures due.nodes == old(due.nodes + [timeouts.nodes[0]]) && timeouts.nodes == old(timeouts.nodes[1..])
    {
      hide Ordered, Stamped, Between, DueBy, List.Valid;
      ghost var q, d, n := Queue(), due.nodes + [timeouts.nodes[0]], timeouts.nodes[1..];
      DueAppend(due.nodes, timeouts.nodes[0], time);
      BetweenTail(timeouts.nodes, time - MIDDLE + 1, time + MIDDLE);
      var to := timeouts.PopFirst();
      due.PushLast(to);
      assert q == d + n && due.nodes == d && timeouts.nodes == n;
      assert timeouts.Valid() && due.Valid() && timeouts.Members() !! due.Members();
      assert Ordered(q) && Stamped(q, armings) && DueBy(d, time) && Between(n, time - MIDDLE + 1, time + MIDDLE);
    }

    /** Move all due timers to the due list; the firing order stays what it was. */
    method MoveDue(ghost time: int, cur: nat)
      requires Valid() && cur == Stamp(time, MIDDLE) && now <= time < now + MIDDLE
      modifies `now, timeouts, due, timeouts.Members()`next, timeouts.Members()`prev, due.Members()`next
      ensures Valid() && Queue() == old(Queue()) && now == time
      ensures Between(timeouts.nodes, now + 1, now + MIDDLE) && timeouts.Members() <= old(timeouts.Members())
      ensures due.Members() <= old(timeouts.Members() + due.Members())
    {
      hide Stamp, Moving, Linked, Timed, Between;
      StartMoving(time);
      now := time;
      var more := FirstDue(time, cur);
      while more
        invariant now == time && Moving(time) && Queue() == old(Queue())
        invariant more <==> |timeouts.nodes| > 0 && timeouts.nodes[0].data.deadline <= time
        invariant timeouts.Members() <= old(timeouts.Members())
        invariant due.Members() <= old(timeouts.Members() + due.Members())
        decreases |timeouts.nodes|
      {
        MoveOne(time);
        more := FirstDue(time, cur);
      }
      EndMoving(time);
    }

    lemma StartMoving(time: int)
      requires Valid() && now <= time < now + MIDDLE
      ensures Moving(time)
    {
      hide Ordered, Stamped, List.Valid;
    }

    lemma EndMoving(time: int)
      requires Moving(time) && now == time && (|timeouts.nodes| > 0 ==> time < timeouts.nodes[0].data.deadline)
      ensures Valid() && Between(timeouts.nodes, now + 1, now + MIDDLE)
    {
      hide Stamped, List.Valid;
      RestLater(due.nodes, timeouts.nodes, time);
    }

    /** The predecessor of a timer due at time + us, searched from the end of the pending list. The
        remaining time is compared as an unsigned number; it is positive for every pending timer. */
    method Predecessor(ghost time: int, cur: nat, us: nat) returns (tp: Node?<Timer>, ghost c: nat)
      requires Linked() && Ordered(timeouts.nodes) && Stamped(timeouts.nodes, armings)
      requires Between(timeouts.nodes, time + 1, time + MIDDLE) && cur == Stamp(time, MIDDLE)
      ensures Splits(timeouts.nodes, c, time + us) && tp == Successor(timeouts.nodes, c - 1)
    {
      hide Stamp, Ordered;
      tp, c := timeouts.last, |timeouts.nodes|;
      while tp != null
        invariant c <= |timeouts.nodes| && tp == Successor(timeouts.nodes, c - 1)
        invariant forall i :: c <= i < |timeouts.nodes| ==> time + us < timeouts.nodes[i].data.deadline
        decreases c
      {
        RelTimeAbsolute(time, tp.data.deadline, MIDDLE);
        if U32(RelTime(cur, tp.data.ts, MIDDLE)) <= us {
          break;
        }
        assert timeouts.nodes[c - 1].prev == Successor(timeouts.nodes, c - 2);
        tp, c := tp.prev, c - 1;
      }
      SplitsFound(timeouts.nodes, c, time + us);
    }

    /** A stamped timer fits the firing order at position c of the pending list. */
    lemma Fits(to: Timeout, c: nat)
      requires Timed() && Splits(timeouts.nodes, c, to.data.deadline) && now <= to.data.deadline < now + MIDDLE
      requires to.data.serial == armings && to.data.ts == Stamp(to.data.deadline, MIDDLE)
      ensures var q := due.nodes + Inserted(timeouts.nodes, c, to);
        && q == Inserted(Queue(), |due.nodes| + c, to) && Ordered(q) && Stamped(q, armings + 1)
        && Between(Inserted(timeouts.nodes, c, to), now, now + MIDDLE)
        && Splits(Queue(), |due.nodes| + c, to.data.deadline)
    {
      hide Stamp, Inserted, Ordered, Splits;
      var d, n := due.nodes, timeouts.nodes;
      SplitsBehind(d, n, c, to.data.deadline);
      InsertedOrdered(d + n, |d| + c, to);
      InsertedStamped(d + n, |d| + c, to, armings + 1);
      InsertedBetween(n, c, to, now, now + MIDDLE);
      InsertedBehind(d, n, c, to);
    }

    /** Link a stamped timer in. */
    method Enqueue(tp: Node?<Timer>, to: Timeout, ghost c: nat)
      requires Valid() && to !in Queue() && now <= to.data.deadline < now + MIDDLE
      requires to.data.serial == armings && to.data.ts == Stamp(to.data.deadline, MIDDLE)
      requires c <= |timeouts.nodes| && Splits(timeouts.nodes, c, to.data.deadline) && tp == Successor(timeouts.nodes, c - 1)
      modifies `armings, timeouts, timeouts.Members()`next, timeouts.Members()`prev, to`next, to`prev
      ensures Valid() && Queue() == Inserted(old(Queue()), |due.nodes| + c, to) && armings == old(armings) + 1
      ensures Splits(old(Queue()), |due.nodes| + c, to.data.deadline)
    {
      hide Stamp, Inserted, Ordered, Stamped, Splits, Between, List.Valid;
      ghost var n := Inserted(timeouts.nodes, c, to);
      ghost var q := due.nodes + n;
      Fits(to, c);
      InsertedMembers(timeouts.nodes, c, to);
      assert Ordered(q) && Stamped(q, armings + 1) && Between(n, now, now + MIDDLE);
      timeouts.InsertAfter(tp, to, c);
      armings := armings + 1;
      assert Ordered(q) && Stamped(q, armings) && Between(n, now, now + MIDDLE);
    }

    /** Write the timer's timestamp and type; the type keeps the 4 bits left beside the timestamp. */
    method SetTimer(to: Timeout, us: nat, kind: nat, cur: nat)
      requires Valid() && to !in Queue() && cur == Stamp(now, MIDDLE)
      modifies to`data
      ensures Valid() && to.data.ts == Stamp(to.data.deadline, MIDDLE) && to.data.deadline == now + us
      ensures to.data.serial == armings && to.data.kind == kind % 16
    {
      hide Stamp, Ordered, List.Valid;
      StampAbsorb(now, us, MIDDLE);
      to.data := Timer(Stamp(cur + us, MIDDLE), kind % 16, now + us, armings);
    }

    /** Find the place of a timer in the pending list and link it in. */
    method Place(to: Timeout, us: nat, kind: nat, cur: nat) returns (ghost c: nat)
      requires Valid() && to !in Queue() && us < MIDDLE && cur == Stamp(now, MIDDLE)
      requires Between(timeouts.nodes, now + 1, now + MIDDLE)
      modifies `armings, timeouts, timeouts.Members()`next, timeouts.Members()`prev, to
      ensures Valid() && Splits(old(Queue()), c, now + us) && Queue() == Inserted(old(Queue()), c, to)
      ensures to.data.deadline == now + us && to.data.serial == old(armings) && to.data.kind == kind % 16
      ensures armings == old(armings) + 1
    {
      hide Stamp, Inserted, Ordered, Stamped, Splits, Between, List.Valid;
      OrderedPart(due.nodes, timeouts.nodes, armings);
      var tp;
      tp, c := Predecessor(now, cur, us);
      SplitsBound(timeouts.nodes, c, now + us);
      SetTimer(to, us, kind, cur);
      Enqueue(tp, to, c);
      c := |due.nodes| + c;
    }

    /** Arm a timer to fire `us` microseconds from now; a time out of range aborts. */
    method Arm(to: Timeout, us: nat, kind: nat, ghost time: int, ts: nat) returns (aborted: bool, ghost c: nat)
      requires Valid() && to !in Queue() && Stamp(ts, MIDDLE) == Stamp(time, MIDDLE) && now <= time < now + MIDDLE
      modifies this, timeouts, due, timeouts.Members()`next, timeouts.Members()`prev, due.Members()`next, to
      ensures Valid() && (aborted <==> us >= MIDDLE)
      ensures aborted ==> Queue() == old(Queue())
      ensures !aborted ==>
        && Splits(old(Queue()), c, time + us) && Queue() == Inserted(old(Queue()), c, to)
        && to.data.deadline == time + us && to.data.serial == old(armings) && to.data.kind == kind % 16
      ensures now == (if aborted then old(now) else time) && armings == old(armings) + (if aborted then 0 else 1)
    {
      hide Stamp, Inserted, Splits, Linked, Timed, Between;
      c := 0;
      aborted := us >= MIDDLE;
      if !aborted {
        MoveDue(time, Stamp(ts, MIDDLE));
        c := Place(to, us, kind, Stamp(ts, MIDDLE));
      }
    }

    /** The pointer updates of disarming: the neighbours are bypassed, and an end of either list moves.
        The branches for a timer at no end of either list abort; they are not reached. */
    method Bypass(to: Timeout, ghost l: List<Timer>, ghost c: nat)
      requires Linked() && (l == timeouts || l == due) && c < |l.nodes| && l.nodes[c] == to
      modifies timeouts`first, timeouts`last, due`first, due`last, l.Members()`next, l.Members()`prev
      ensures l.Bypassed(c)
      ensures l != timeouts ==> timeouts.first == old(timeouts.first) && timeouts.last == old(timeouts.last)
      ensures l != due ==> due.first == old(due.first) && due.last == old(due.last)
    {
      var prev, next := to.prev, to.next;
      assert prev == Successor(l.nodes, c - 1) && next == Successor(l.nodes, c + 1);
      assert to in l.Members() && (l.nodes[0] == to <==> c == 0) && (l.nodes[|l.nodes| - 1] == to <==> c == |l.nodes| - 1);
      assert l == due ==> timeouts.first != to && timeouts.last != to;
      assert timeouts.first == to <==> l == timeouts && c == 0;
      assert timeouts.last == to <==> l == timeouts && c == |l.nodes| - 1;
      if prev == null {
        if timeouts.first == to {
          timeouts.first := next;
        } else if due.first == to {
          due.first := next;
        } else {
          assert false;
        }
      } else {
        prev.next := next;
      }
      if next == null {
        if timeouts.last == to {
          timeouts.last := prev;
        } else if due.last == to {
          due.last := prev;
        } else {
          assert false;
        }
      } else {
        next.prev := prev;
      }
    }

    lemma Apart()
      requires Linked()
      ensures timeouts != due
    {
    }

    lemma StaysTimed(c: nat, d: seq<Timeout>, n: seq<Timeout>)
      requires Timed() && c < |Queue()|
      requires d == (if c < |due.nodes| then Removed(due.nodes, c) else due.nodes)
      requires n == (if c < |due.nodes| then timeouts.nodes else Removed(timeouts.nodes, c - |due.nodes|))
      ensures d + n == Removed(Queue(), c) && Ordered(d + n) && Stamped(d + n, armings)
      ensures DueBy(d, now) && Between(n, now, now + MIDDLE)
      ensures (forall t <- d :: t in due.nodes) && (forall t <- n :: t in timeouts.nodes)
    {
      hide Stamp, Ordered, Removed;
      RemovedAside(due.nodes, timeouts.nodes, c);
      RemovedOrdered(Queue(), c);
      RemovedMembers(Queue(), c);
      if c < |due.nodes| {
        RemovedMembers(due.nodes, c);
      } else {
        RemovedMembers(timeouts.nodes, c - |due.nodes|);
      }
    }

    method Detach(to: Timeout, ghost l: List<Timer>, ghost k: nat)
      requires Linked() && (l == timeouts || l == due) && k < |l.nodes| && l.nodes[k] == to
      modifies timeouts, due, l.Members()`next, l.Members()`prev
      ensures Linked() && to !in timeouts.nodes && to !in due.nodes
      ensures timeouts.nodes == old(if l == timeouts then Removed(timeouts.nodes, k) else timeouts.nodes)
      ensures due.nodes == old(if l == due then Removed(due.nodes, k) else due.nodes)
    {
      hide Removed, List.Bypassed;
      RemovedMembers(l.nodes, k);
      assert to in l.Members();
      Bypass(to, l, k);
      l.Forget(k);
    }

    /** Disarm an armed timer, whichever list it is in. */
    method Disarm(to: Timeout, ghost c: nat)
      requires Valid() && c < |Queue()| && Queue()[c] == to
      modifies timeouts, due, timeouts.Members()`next, timeouts.Members()`prev, due.Members()`next, due.Members()`prev
      ensures Valid() && Queue() == Removed(old(Queue()), c) && to !in Queue()
    {
      hide Stamp, Ordered, Stamped, Between, DueBy, Removed, Linked;
      ghost var l := if c < |due.nodes| then due else timeouts;
      ghost var k := if c < |due.nodes| then c else c - |due.nodes|;
      ghost var d := if c < |due.nodes| then Removed(due.nodes, c) else due.nodes;
      ghost var n := if c < |due.nodes| then timeouts.nodes else Removed(timeouts.nodes, c - |due.nodes|);
      Apart();
      StaysTimed(c, d, n);
      Detach(to, l, k);
      assert due.nodes == d && timeouts.nodes == n;
      assert Ordered(d + n) && Stamped(d + n, armings) && DueBy(d, now) && Between(n, now, now + MIDDLE);
    }

    /** Take the next due timer, if any, for its handler. */
    method Fire() returns (to: Node?<Timer>)
      requires Valid()
      modifies due, due.Members()`next, due.Members()`prev
      ensures Valid() && (to == null <==> |old(due.nodes)| == 0)
      ensures to == null ==> Queue() == old(Queue()) == timeouts.nodes
      ensures to != null ==> to.data.deadline <= now && old(Queue()) == [to] + Queue() && due.nodes == old(due.nodes)[1..]
    {
      hide Stamp, Ordered, Stamped, Between;
      if due.first == null {
        return null;
      }
      ghost var d, n := due.nodes[1..], timeouts.nodes;
      TailTimed(due.nodes, n, armings);
      assert Queue() == [due.nodes[0]] + (d + n);
      to := due.PopFirst();
      assert to in old(due.Members());
      assert Ordered(d + n) && Stamped(d + n, armings) && Between(n, now, now + MIDDLE);
    }

    /** Fire due timers, at most 64 of them, in order: none early, and none left that is due unless the
        limit was reached. */
    method Poll(ghost time: int, ts: nat) returns (fired: seq<Timeout>)
      requires Valid() && Stamp(ts, MIDDLE) == Stamp(time, MIDDLE) && now <= time < now + MIDDLE
      modifies `now, timeouts, due, timeouts.Members()`next, timeouts.Members()`prev,
               due.Members()`next, due.Members()`prev
      ensures Valid() && now == time && |fired| <= MAX_TIMEOUTS && old(Queue()) == fired + Queue()
      ensures DueBy(fired, time) && (|fired| < MAX_TIMEOUTS ==> Between(Queue(), time + 1, time + MIDDLE))
    {
      hide Stamp, Linked, Timed, Between, DueBy;
      MoveDue(time, Stamp(ts, MIDDLE));
      fired := FireDue();
    }

    /** The loop of util_timeout_poll_ts over the due timers. */
    method FireDue() returns (fired: seq<Timeout>)
      requires Valid()
      modifies due, due.Members()`next, due.Members()`prev
      ensures Valid() && |fired| <= MAX_TIMEOUTS && old(Queue()) == fired + Queue() && timeouts.nodes == old(timeouts.nodes)
      ensures DueBy(fired, now) && (|fired| < MAX_TIMEOUTS ==> Queue() == timeouts.nodes)
    {
      hide Stamp, Linked, Timed, Between, DueBy;
      fired := [];
      DueNone(now);
      ghost var q := Queue();
      while |fired| < MAX_TIMEOUTS
        invariant Valid() && q == fired + Queue() && |fired| <= MAX_TIMEOUTS && DueBy(fired, now)
        invariant due.Members() <= old(due.Members()) && timeouts.nodes == old(timeouts.nodes)
      {
        var to := Fire();
        if to == null {
          break;
        }
        assert q == (fired + [to]) + Queue();
        DueAppend(fired, to, now);
        fired := fired + [to];
      }
    }

    /** Microseconds until the next timer is due, the largest 32-bit number if none is armed. */
    method Next(ghost time: int, ts: nat) returns (us: nat)
      requires Valid() && Stamp(ts, MIDDLE) == Stamp(time, MIDDLE) && now <= time < now + MIDDLE
      ensures us == if Queue() == [] then W32 - 1 else Max(0, Queue()[0].data.deadline - time)
    {
      if due.first != null {
        return 0;
      }
      if timeouts.first == null {
        return W32 - 1;
      }
      assert timeouts.first in Queue();
      RelTimeAbsolute(time, timeouts.first.data.deadline, MIDDLE);
      var next := RelTime(Stamp(ts, MIDDLE), timeouts.first.data.ts, MIDDLE);
      us := if next < 0 then 0 else next;
    }
  }
}
