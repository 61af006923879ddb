/** Rebalancing of the redirection table when fast-path cores come and go (tas/fast/network.c). */
module RssBalance {
  import opened Arith
  import opened RssTable

  /** All entries name one of the first `active` cores. */
  ghost predicate Within(table: seq<nat>, active: nat) {
    forall k :: 0 <= k < |table| ==> table[k] < active
  }

  ghost predicate Counted(table: seq<nat>, buckets: seq<nat>) {
    forall c :: 0 <= c < |buckets| ==> buckets[c] == Count(table, c)
  }

  /** The steering entries have 8 bits. */
  ghost predicate Mirrored(steering: seq<nat>, table: seq<nat>) {
    |steering| == |table| && forall k :: 0 <= k < |table| ==> steering[k] == table[k] % 256
  }

  /** Part-way through a scale-up: cores before j have their share, j has i entries, each old core has lost only what it
      had beyond the share, and one that has lost some has at most one fewer than any other old core. */
  ghost predicate Growing(was: seq<nat>, b: seq<nat>, cur: nat, j: nat, i: nat, share: nat) {
    && |b| == |was| && cur <= j <= |b|
    && (forall c :: 0 <= c < cur ==> Min(was[c], share) <= b[c] <= was[c])
    && (forall c :: cur <= c < j ==> b[c] == share)
    && (forall c :: j <= c < |b| ==> b[c] == if c == j then i else 0)
    && (forall c, d :: 0 <= c < cur && 0 <= d < cur && b[c] < was[c] ==> b[d] <= b[c] + 1)
  }

  /** Part-way through a scale-up: exactly the masked entries were moved, to new cores. */
  ghost predicate Marking(mask: seq<bool>, was: seq<nat>, table: seq<nat>, cur: nat) {
    && |mask| == |was| == |table|
    && forall k :: 0 <= k < |mask| ==> if mask[k] then cur <= table[k] else table[k] == was[k]
  }

  lemma MarkingDone(mask: seq<bool>, was: seq<nat>, table: seq<nat>, cur: nat)
    requires Marking(mask, was, table, cur) && Within(was, cur)
    ensures MarksChanges(mask, was, table)
  {
  }

  /** Until the last entry is handed over, the old cores hold more than their share in total. */
  lemma RoomLeft(size: nat, target: nat, cur: nat, j: nat, i: nat, share: nat)
    requires 0 < target && share == size / target && cur <= j < target && i < share
    ensures (j - cur) * share + i + share * cur < size
  {
    ShareFits(size, target);
    Times(j - cur, cur, share);
    Times(j, target - 1 - j, share);
    Times(target - 1, 1, share);
  }

  lemma ShareFits(size: nat, target: nat)
    requires 0 < target
    ensures target * (size / target) <= size
  {
  }

  lemma Times(a: nat, b: nat, c: nat)
    ensures (a + b) * c == a * c + b * c && 0 <= b * c
  {
  }

  lemma StartGrowing(table: seq<nat>, buckets: seq<nat>, cur: nat, share: nat)
    requires cur <= |buckets| && Within(table, cur) && Counted(table, buckets)
    ensures Growing(buckets, buckets, cur, cur, 0, share) && Total(buckets[..cur]) == |table|
  {
    hide Count, Total;
    forall c | cur <= c < |buckets| ensures buckets[c] == 0 {
      CountNone(table, c);
    }
    CountsTotal(table, buckets[..cur]);
  }

  /** Cores without entries are named nowhere. */
  lemma StaysWithin(table: seq<nat>, buckets: seq<nat>, active: nat)
    requires Within(table, |buckets|) && Counted(table, buckets)
    requires forall c :: active <= c < |buckets| ==> buckets[c] == 0
    ensures Within(table, active)
  {
    hide Count;
    forall k | 0 <= k < |table| ensures table[k] < active {
      CountSome(table, k);
    }
  }

  /** Part-way through a scale-down: the first i entries name remaining cores, the others are as they
      were, and the mask marks the entries moved. */
  ghost predicate Shrinking(was: seq<nat>, table: seq<nat>, mask: seq<bool>, target: nat, i: nat) {
    && |mask| == |was| == |table| && i <= |table|
    && (forall k :: 0 <= k < i ==> if was[k] < target then table[k] == was[k] else table[k] < target)
    && (forall k :: i <= k < |table| ==> table[k] == was[k])
    && (forall k :: 0 <= k < |mask| ==> (mask[k] <==> k < i && was[k] >= target))
  }

  /** Remaining cores lose nothing. Unless the table is too large for the 8-bit start of the search, a
      core that gained has at most one entry more than any other. */
  ghost predicate Levelled(was: seq<nat>, b: seq<nat>, target: nat, size: nat) {
    && |b| == |was| && target <= |b|
    && (forall c :: 0 <= c < target ==> was[c] <= b[c])
    && (size <= 255 * target ==>
         forall c, d :: 0 <= c < target && 0 <= d < target ==> b[c] <= Max(was[c], b[d] + 1))
  }

  /** While an entry still names a core that goes away, some remaining core has fewer than 255. */
  lemma SomeSmall(table: seq<nat>, buckets: seq<nat>, target: nat, i: nat)
    requires Within(table, |buckets|) && Counted(table, buckets) && target <= |buckets|
    requires i < |table| && table[i] >= target
    ensures |table| <= 255 * target ==> exists c :: 0 <= c < target && buckets[c] < 255
  {
    hide Count, Total;
    CountsTotal(table, buckets);
    CountSome(table, i);
    TotalPrefix(buckets, target, table[i]);
    if forall c :: 0 <= c < target ==> 255 <= buckets[c] {
      PigeonholeBelow(buckets[..target], 255);
    }
  }

  /** One entry goes from a core that goes away to the least busy remaining one. */
  lemma LevelledNext(was: seq<nat>, b: seq<nat>, target: nat, size: nat, away: nat, c: nat, b': seq<nat>)
    requires Levelled(was, b, target, size) && c < target <= away < |b| && b[away] > 0
    requires size <= 255 * target ==> forall d :: 0 <= d < target ==> b[c] <= b[d]
    requires b' == b[away := b[away] - 1][c := b[c] + 1]
    ensures Levelled(was, b', target, size)
  {
  }

  lemma CycleNext(k: nat, size: nat)
    requires k < size
    ensures (k + 1) % size == if k + 1 == size then 0 else k + 1
  {
  }

  /** After a scale-up every core has its share exactly when every old core had it before. */
  lemma FairIff(was: seq<nat>, b: seq<nat>, cur: nat, target: nat, share: nat)
    requires cur <= target <= |was| && Growing(was, b, cur, target, 0, share)
    ensures (forall c :: 0 <= c < target ==> share <= b[c]) <==> forall c :: 0 <= c < cur ==> share <= was[c]
  {
    forall c | 0 <= c < cur ensures share <= b[c] <==> share <= was[c] {
      assert Min(was[c], share) <= b[c] <= was[c];
    }
  }

  /** Old cores that were balanced within one entry stay so. */
  lemma StaysBalanced(was: seq<nat>, b: seq<nat>, cur: nat, target: nat, share: nat, c: nat, d: nat)
    requires cur <= target <= |was| && Growing(was, b, cur, target, 0, share) && c < cur && d < cur
    requires was[d] <= was[c] + 1
    ensures b[d] <= b[c] + 1
  {
    assert b[d] <= was[d] && b[c] <= was[c];
  }

  /** A table balanced within one entry gives every old core the share of any larger number of cores. */
  lemma BalancedHasShare(b: seq<nat>, size: nat, target: nat, c: nat)
    requires 0 < |b| <= target && Total(b) == size && c < |b|
    requires forall d :: 0 <= d < |b| ==> b[d] <= b[c] + 1
    ensures size / target <= b[c]
  {
    hide Total;
    var share := size / target;
    if b[c] < share {
      var raised := b[c := share];
      TotalUpdate(b, c, share);
      Pigeonhole(raised, share);
      ShareFits(size, target);
      Times(|b|, target - |b|, share);
      assert false;
    }
  }

  lemma EmptyCounted(table: seq<nat>, buckets: seq<nat>)
    requires table == [] && forall c :: 0 <= c < |buckets| ==> buckets[c] == 0
    ensures Counted(table, buckets)
  {
  }

  lemma CountAppend(table: seq<nat>, c: nat, buckets: seq<nat>)
    requires c < |buckets| && Counted(table, buckets)
    ensures Counted(table + [c], buckets[c := buckets[c] + 1])
  {
    assert (table + [c])[..|table|] == table;
  }

  lemma Moved(table: seq<nat>, buckets: seq<nat>, k: nat, c: nat, j: nat)
    requires Within(table, |buckets|) && Counted(table, buckets)
    requires k < |table| && table[k] == c && j < |buckets| && c != j
    ensures c < |buckets| && buckets[c] > 0
    ensures Within(table[k := j], |buckets|)
    ensures Counted(table[k := j], buckets[c := (buckets[c] - 1) as nat][j := buckets[j] + 1])
  {
    hide Count;
    CountSome(table, k);
    forall d | 0 <= d < |buckets|
      ensures Count(table[k := j], d) + (if d == c then 1 else 0) == buckets[d] + if d == j then 1 else 0
    {
      CountUpdate(table, k, j, d);
    }
  }

  /** What the NIC holds once it has taken over the masked entries. */
  function Masked(nic: seq<nat>, mask: seq<bool>, table: seq<nat>): seq<nat>
    requires |nic| == |mask| == |table|
  {
    seq(|nic|, k requires 0 <= k < |nic| => if mask[k] then table[k] else nic[k])
  }

  /** The mask marks exactly the entries that changed. */
  ghost predicate MarksChanges(mask: seq<bool>, was: seq<nat>, table: seq<nat>) {
    && |mask| == |was| == |table|
    && forall k :: 0 <= k < |mask| ==> (mask[k] <==> table[k] != was[k])
  }

  /** The file-scope state of network.c: the redirection table with its change mask, the count of entries
      of each core, and the copy of the table that steers flow groups. `nic` is the table in the NIC. */
  class Rss {
    const reta: array<nat>
    const mask: array<bool>
    const steering: array<nat>
    const buckets: array<nat>
    ghost var nic: seq<nat>

    ghost predicate Separate()
    {
      && reta.Length == mask.Length == steering.Length && 0 < reta.Length < W16
      && reta != steering && reta != buckets && steering != buckets
    }

    ghost predicate Valid()
      reads this, reta, mask, steering, buckets
    {
      && Separate() && |nic| == reta.Length
      && Within(reta[..], buckets.Length) && Counted(reta[..], buckets[..]) && Mirrored(steering[..], reta[..])
    }

    /** reta_setup: entries go round the active cores, so no core has over one entry more than another. */
    constructor (size: nat, cores: nat, active: nat, ghost device: seq<nat>)
      requires 0 < size < W16 && 0 < active <= cores && |device| == size
      ensures Valid() && reta.Length == size && buckets.Length == cores && Within(reta[..], active)
      ensures nic == reta[..] && fresh(reta) && fresh(mask) && fresh(steering) && fresh(buckets)
      ensures forall c, d :: 0 <= c < active && 0 <= d < active ==> buckets[c] <= buckets[d] + 1
    {
      reta, mask, steering := new nat[size], new bool[size], new nat[size];
      buckets := new nat[cores](_ => 0);
      nic := device;
      new;
      Deal(active);
      nic := Masked(nic, mask[..], reta[..]);
    }

    /** The loop of reta_setup: the entries go round the active cores. */
    method Deal(active: nat)
      requires 0 < active <= buckets.Length && reta.Length == mask.Length == steering.Length
      requires reta != steering && reta != buckets && steering != buckets
      requires forall c :: 0 <= c < buckets.Length ==> buckets[c] == 0
      modifies reta, mask, steering, buckets
      ensures Within(reta[..], active) && Counted(reta[..], buckets[..])
      ensures forall k :: 0 <= k < reta.Length ==> mask[k] && steering[k] == reta[k] % 256
      ensures forall c, d :: 0 <= c < active && 0 <= d < active ==> buckets[c] <= buckets[d] + 1
    {
      hide Counted;
      var size := reta.Length;
      var c: nat, round: nat := 0, 0;
      EmptyCounted(reta[..0], buckets[..]);
      for i := 0 to size
        invariant c < active
        invariant forall d :: 0 <= d < active ==> buckets[d] == round + if d < c then 1 else 0
        invariant forall k :: 0 <= k < i ==> mask[k] && steering[k] == reta[k] % 256
        invariant Within(reta[..i], active) && Counted(reta[..i], buckets[..])
      {
        CountAppend(reta[..i], c, buckets[..]);
        ghost var more := buckets[..][c := buckets[c] + 1];
        buckets[c] := buckets[c] + 1;
        mask[i] := true;
        reta[i] := c;
        steering[i] := c % 256;
        assert reta[..i + 1] == reta[..i] + [c];
        assert buckets[..] == more;
        CycleNext(c, active);
        if c + 1 == active {
          round := round + 1;
        }
        c := (c + 1) % active;
      }
      assert reta[..size] == reta[..];
    }

    /** core_max: the last core with the most entries. */
    method CoreMax(num: nat) returns (m: nat)
      requires num <= buckets.Length
      ensures num > 0 ==> m < num && forall d :: 0 <= d < num ==> buckets[d] <= buckets[m]
      ensures forall d :: m < d < num ==> buckets[d] < buckets[m]
      ensures num == 0 ==> m == 0
    {
      m := 0;
      var v := 0;
      for i := 0 to num
        invariant i == 0 ==> m == 0 && v == 0
        invariant i > 0 ==> m < i && v == buckets[m]
        invariant forall d :: 0 <= d < i ==> buckets[d] <= v
        invariant forall d :: m < d < i ==> buckets[d] < v
      {
        if buckets[i] >= v {
          v, m := buckets[i], i;
        }
      }
    }

    /** core_min: the search starts from the largest 8-bit number, so it finds the first core with the
        fewest entries exactly when some core has fewer than 255, and otherwise falls back to core 0. */
    method CoreMin(num: nat) returns (m: nat)
      requires 0 < num <= buckets.Length
      ensures m < num
      ensures (exists d :: 0 <= d < num && buckets[d] < 255) ==>
        (forall d :: 0 <= d < num ==> buckets[m] <= buckets[d]) && forall d :: 0 <= d < m ==> buckets[m] < buckets[d]
      ensures (forall d :: 0 <= d < num ==> buckets[d] >= 255) ==> m == 0
    {
      m := 0;
      var v := 255;
      for i := 0 to num
        invariant m < num && v <= 255
        invariant v == 255 ==> m == 0
        invariant v < 255 ==> m < i && v == buckets[m]
        invariant forall d :: 0 <= d < i ==> v <= buckets[d]
        invariant v < 255 ==> forall d :: 0 <= d < m ==> v < buckets[d]
      {
        if buckets[i] < v {
          v, m := buckets[i], i;
        }
      }
    }

    /** Cores with 300 and 255 entries: the search returns the busier one. */
    method MinMissed() returns (m: nat)
      requires buckets.Length >= 2 && buckets[0] == 300 && buckets[1] == 255
      ensures m == 0 && buckets[m] > buckets[1]
    {
      m := CoreMin(2);
    }

    /** Hand entry k of core c to core j. */
    method Move(k: nat, c: nat, j: nat)
      requires Valid() && k < reta.Length && reta[k] == c && j < buckets.Length && c != j
      modifies reta, mask, steering, buckets
      ensures Valid() && reta[..] == old(reta[..])[k := j] && mask[..] == old(mask[..])[k := true]
      ensures c < buckets.Length && old(buckets[c]) > 0
      ensures buckets[..] == old(buckets[..])[c := (old(buckets[c]) - 1) as nat][j := old(buckets[j]) + 1]
    {
      hide Counted, Within;
      Moved(reta[..], buckets[..], k, c, j);
      assert reta[..][k] == c && buckets[..][c] == buckets[c];
      mask[k] := true;
      reta[k] := j;
      steering[k] := j % 256;
      buckets[c] := buckets[c] - 1;
      buckets[j] := buckets[j] + 1;
      assert buckets[..] == old(buckets[..])[c := (old(buckets[c]) - 1) as nat][j := old(buckets[j]) + 1];
      assert reta[..] == old(reta[..])[k := j];
      assert steering[..] == old(steering[..])[k := j % 256];
    }

    /** The cyclic search for an entry of core c, starting at k; it ends because c has an entry. */
    method FindEntry(start: nat, c: nat) returns (k: nat)
      requires Valid() && start < reta.Length && c < buckets.Length && buckets[c] > 0
      ensures k < reta.Length && reta[k] == c
    {
      hide Count;
      assert buckets[..][c] == buckets[c];
      ghost var w := CountFinds(reta[..], c);
      k := start;
      while reta[k] != c
        invariant k < reta.Length && reta[w] == c
        decreases if k <= w then w - k else w + reta.Length - k
      {
        CycleNext(k, reta.Length);
        k := (k + 1) % reta.Length;
      }
    }

    /** Hand the NIC the masked entries; it keeps its table if it refuses. */
    method UpdateNic(accepted: bool) returns (ok: bool)
      requires |nic| == reta.Length == mask.Length
      modifies `nic
      ensures ok == accepted && nic == if accepted then Masked(old(nic), mask[..], reta[..]) else old(nic)
    {
      ok := accepted;
      if accepted {
        nic := Masked(nic, mask[..], reta[..]);
      }
    }

    method ClearMask()
      modifies mask
      ensures forall k :: 0 <= k < mask.Length ==> !mask[k]
    {
      for k := 0 to mask.Length
        invariant forall i :: 0 <= i < k ==> !mask[i]
      {
        mask[k] := false;
      }
    }

    /** Give core j one entry of the busiest of the first `cur` cores, which has more than its share. */
    method TakeOne(cur: nat, j: nat, start: nat, ghost share: nat) returns (k: nat, c: nat)
      requires Valid() && 0 < cur <= j < buckets.Length && start < reta.Length
      requires share * cur < Total(buckets[..cur])
      modifies reta, mask, steering, buckets
      ensures Valid() && k < reta.Length && c < cur && old(reta[k]) == c && share < old(buckets[c])
      ensures forall d :: 0 <= d < cur ==> old(buckets[d]) <= old(buckets[c])
      ensures reta[..] == old(reta[..])[k := j] && mask[..] == old(mask[..])[k := true]
      ensures buckets[..] == old(buckets[..])[c := (old(buckets[c]) - 1) as nat][j := old(buckets[j]) + 1]
      ensures Total(buckets[..cur]) + 1 == Total(old(buckets[..])[..cur])
    {
      hide Counted, Within, Mirrored, Total;
      ghost var b := buckets[..];
      c := CoreMax(cur);
      if b[c] <= share {
        Pigeonhole(b[..cur], share);
      }
      k := FindEntry(start, c);
      Move(k, c, j);
      TotalUpdate(b[..cur], c, b[c] - 1);
      assert buckets[..cur] == b[..cur][c := (b[c] - 1) as nat];
    }

    /** Part-way through a scale-up. */
    ghost predicate ScalingUp(was: seq<nat>, count: seq<nat>, cur: nat, j: nat, i: nat, share: nat)
      requires cur <= j
      reads this, reta, mask, steering, buckets
    {
      && Valid() && Growing(count, buckets[..], cur, j, i, share) && Marking(mask[..], was, reta[..], cur)
      && Total(buckets[..cur]) + (j - cur) * share + i == reta.Length
    }

    /** One hand-over of a scale-up. */
    method GiveOne(cur: nat, target: nat, j: nat, ghost i: nat, start: nat, ghost share: nat,
                   ghost was: seq<nat>, ghost count: seq<nat>) returns (k: nat)
      requires 0 < cur <= j < target <= buckets.Length && share == reta.Length / target && i < share
      requires ScalingUp(was, count, cur, j, i, share) && start < reta.Length
      modifies reta, mask, steering, buckets
      ensures ScalingUp(was, count, cur, j, i + 1, share) && k < reta.Length
    {
      hide Counted, Within, Mirrored, Total;
      RoomLeft(reta.Length, target, cur, j, i, share);
      var c;
      k, c := TakeOne(cur, j, start, share);
    }

    /** Hand a new core its share. */
    method GiveShare(cur: nat, target: nat, j: nat, start: nat, share: nat,
                     ghost was: seq<nat>, ghost count: seq<nat>) returns (k: nat)
      requires 0 < cur <= j < target <= buckets.Length && share == reta.Length / target
      requires ScalingUp(was, count, cur, j, 0, share) && start < reta.Length
      modifies reta, mask, steering, buckets
      ensures ScalingUp(was, count, cur, j + 1, 0, share) && k < reta.Length
    {
      hide Counted, Within, Mirrored, Total, Marking;
      k := start;
      for i := 0 to share
        invariant ScalingUp(was, count, cur, j, i, share) && k < reta.Length
      {
        hide ScalingUp;
        k := GiveOne(cur, target, j, i, k, share, was, count);
      }
      Times(j - cur, 1, share);
    }

    /** Spread the table from `cur` to `target` cores. Every new core gets exactly its share, no old core
        is taken below its share, and the mask marks exactly the changed entries. */
    method ScaleUp(cur: nat, target: nat, accepted: bool) returns (ok: bool)
      requires Valid() && 0 < cur <= target <= buckets.Length && Within(reta[..], cur)
      modifies `nic, reta, mask, steering, buckets
      ensures Valid() && ok == accepted && Within(reta[..], target)
      ensures Growing(old(buckets[..]), buckets[..], cur, target, 0, reta.Length / target)
      ensures MarksChanges(mask[..], old(reta[..]), reta[..])
      ensures accepted && old(nic == reta[..]) ==> nic == reta[..]
    {
      hide Counted, Mirrored, Total, Within;
      var share := reta.Length / target;
      ghost var was, count := reta[..], buckets[..];
      StartGrowing(was, count, cur, share);
      ClearMask();
      var k: nat := 0;
      for j := cur to target
        invariant ScalingUp(was, count, cur, j, 0, share) && k < reta.Length && nic == old(nic)
      {
        hide ScalingUp;
        k := GiveShare(cur, target, j, k, share, was, count);
      }
      StaysWithin(reta[..], buckets[..], target);
      MarkingDone(mask[..], was, reta[..], cur);
      ok := UpdateNic(accepted);
    }

    /** Part-way through a scale-down. */
    ghost predicate ScalingDown(was: seq<nat>, count: seq<nat>, target: nat, i: nat)
      reads this, reta, mask, steering, buckets
    {
      Valid() && Shrinking(was, reta[..], mask[..], target, i) && Levelled(count, buckets[..], target, reta.Length)
    }

    /** Give entry i, of a core that goes away, to the least busy remaining core. */
    method Rehome(i: nat, target: nat, ghost was: seq<nat>, ghost count: seq<nat>)
      requires i < reta.Length && 0 < target <= buckets.Length && ScalingDown(was, count, target, i)
      requires reta[i] >= target
      modifies reta, mask, steering, buckets
      ensures ScalingDown(was, count, target, i + 1)
    {
      hide Counted, Within, Mirrored, Total, Levelled;
      ghost var b, away := buckets[..], reta[i];
      SomeSmall(reta[..], b, target, i);
      var c := CoreMin(target);
      Move(i, reta[i], c);
      LevelledNext(count, b, target, reta.Length, away, c, buckets[..]);
    }

    /** Move every entry of a core that goes away to the least busy remaining core: afterwards every
        entry names a remaining core, and a core that got entries has at most one more than any other. */
    method ScaleDown(cur: nat, target: nat, accepted: bool) returns (ok: bool)
      requires Valid() && 0 < target <= cur <= buckets.Length && Within(reta[..], cur)
      modifies `nic, reta, mask, steering, buckets
      ensures Valid() && ok == accepted && Within(reta[..], target)
      ensures forall k :: 0 <= k < reta.Length && old(reta[k]) < target ==> reta[k] == old(reta[k])
      ensures Levelled(old(buckets[..]), buckets[..], target, reta.Length)
      ensures MarksChanges(mask[..], old(reta[..]), reta[..])
      ensures accepted && old(nic == reta[..]) ==> nic == reta[..]
    {
      hide Counted, Mirrored, Total;
      ghost var was, count := reta[..], buckets[..];
      ClearMask();
      for i := 0 to reta.Length
        invariant ScalingDown(was, count, target, i) && nic == old(nic)
      {
        if reta[i] >= target {
          Rehome(i, target, was, count);
        }
      }
      ok := UpdateNic(accepted);
    }
  }
}
