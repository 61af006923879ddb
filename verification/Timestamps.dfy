/** The wrap-around comparison shared by the queue manager (32-bit nanoseconds) and the timer
    manager (28-bit microseconds): rel_time in tas/fast/qman.c and lib/utils/timeout.c. */
module Timestamps {
  /** rel_time for timestamps of modulus 2 * mid. */
  function RelTime(cur: nat, ts: nat, mid: nat): int
    requires 0 < mid && cur < 2 * mid && ts < 2 * mid
  {
    if cur < mid then
      var start := cur + mid;
      if start <= ts then ts - start - mid else ts - cur
    else if cur == mid then ts - cur
    else
      var end := cur - mid + 1;
      if ts < end then ts + (2 * mid - cur) else ts - cur
  }

  /** A timestamp as stored: absolute time modulo 2 * mid, written as repeated subtraction. */
  function Stamp(t: int, mid: nat): (s: nat)
    requires 0 < mid
    ensures s < 2 * mid
    decreases t < 0, if t < 0 then -t else t
  {
    var m := 2 * mid;
    if t < 0 then Stamp(t + m, mid) else if t < m then t else Stamp(t - m, mid)
  }

  lemma {:induction false} StampAbsorb(t: int, d: int, mid: nat)
    requires 0 < mid
    ensures Stamp(Stamp(t, mid) + d, mid) == Stamp(t + d, mid)
    decreases t < 0, if t < 0 then -t else t
  {
    var m := 2 * mid;
    if t < 0 {
      StampAbsorb(t + m, d, mid);
      StampShift(t + d, mid);
    } else if t >= m {
      StampAbsorb(t - m, d, mid);
      StampShift(t - m + d, mid);
    }
  }

  lemma StampShift(t: int, mid: nat)
    requires 0 < mid
    ensures Stamp(t + 2 * mid, mid) == Stamp(t, mid)
  {
  }

  /** Subtracting a stored timestamp is subtracting the time it stands for. */
  lemma {:induction false} StampMinus(x: int, t: int, mid: nat)
    requires 0 < mid
    ensures Stamp(x - Stamp(t, mid), mid) == Stamp(x - t, mid)
    decreases t < 0, if t < 0 then -t else t
  {
    var m := 2 * mid;
    if t < 0 {
      StampMinus(x, t + m, mid);
      StampShift(x - t - m, mid);
    } else if t >= m {
      StampMinus(x, t - m, mid);
      StampShift(x - t, mid);
    }
  }

  /** The stored timestamps less than half the range apart compare exactly as the absolute times. */
  lemma RelTimeExact(cur: nat, ts: nat, mid: nat, d: int)
    requires 0 < mid && cur < 2 * mid && ts < 2 * mid && 0 < mid + d && d < mid
    requires ts == cur + d || ts == cur + d + 2 * mid || ts == cur + d - 2 * mid
    ensures RelTime(cur, ts, mid) == d
  {
  }

  /** Whatever the stored timestamps, the relative time leads from one to the other. */
  lemma RelTimeLeads(cur: nat, ts: nat, mid: nat)
    requires 0 < mid && cur < 2 * mid && ts < 2 * mid
    ensures 0 <= mid + RelTime(cur, ts, mid) && RelTime(cur, ts, mid) <= mid
    ensures var r := cur + RelTime(cur, ts, mid);
      ts == r || ts == r + 2 * mid || ts == r - 2 * mid
  {
  }

  lemma StampNear(t: int, d: int, mid: nat)
    requires 0 < mid && 0 < 2 * mid + d && d < 2 * mid
    ensures var m, x := 2 * mid, Stamp(t, mid) + d;
      Stamp(t + d, mid) == if x < 0 then x + m else if x < m then x else x - m
  {
    var x := Stamp(t, mid) + d;
    StampAbsorb(t, d, mid);
    if x < 0 {
      StampShift(x, mid);
    } else if x >= 2 * mid {
      StampShift(x - 2 * mid, mid);
    }
  }

  /** Absolute times less than half the range apart: the comparison is exact. */
  lemma RelTimeAbsolute(t: int, u: int, mid: nat)
    requires 0 < mid && t < u + mid && u < t + mid
    ensures RelTime(Stamp(t, mid), Stamp(u, mid), mid) == u - t
  {
    StampNear(t, u - t, mid);
    RelTimeExact(Stamp(t, mid), Stamp(u, mid), mid, u - t);
  }

  /** Clamping a stored timestamp relative to the current time keeps it a valid stamp. */
  lemma StampOfRel(t: int, ts: nat, mid: nat)
    requires 0 < mid && ts < 2 * mid
    ensures Stamp(t + RelTime(Stamp(t, mid), ts, mid), mid) == ts
  {
    var cur := Stamp(t, mid);
    RelTimeLeads(cur, ts, mid);
    StampNear(t, RelTime(cur, ts, mid), mid);
  }

  /** Why the clocks must be read less than half the range apart: after `elapsed` time units, a time
      that was `now` still compares as not in the future exactly when elapsed, modulo the range, is
      below half of it (half itself is judged by where the current timestamp lies). */
  lemma PastIffRecent(now: int, elapsed: nat, mid: nat)
    requires 0 < mid
    ensures var e := Stamp(elapsed, mid);
      RelTime(Stamp(now, mid), Stamp(now + elapsed, mid), mid) >= 0
      <==> e < mid || (e == mid && Stamp(now, mid) > mid)
  {
    hide Stamp;
    var e := Stamp(elapsed, mid);
    StampAbsorb(elapsed, now, mid);
    assert elapsed + now == now + elapsed && e + now == now + e;
    StampNear(now, e, mid);
  }

  /** With 32-bit nanoseconds: after 2^31 + 1 of them, the present compares as being in the past. */
  lemma HalfRangeLater()
    ensures RelTime(Stamp(0, 0x8000_0000), Stamp(0x8000_0001, 0x8000_0000), 0x8000_0000) == -0x7FFF_FFFF
  {
  }
}
