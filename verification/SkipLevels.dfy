/** The levels of a skip list as sub-sequences of one time-sorted sequence. */
module SkipLevels {
  import opened IndexList

  /** Elements of `order` that are present at level l, in order. */
  function Level(order: seq<nat>, height: seq<nat>, l: nat): seq<nat> {
    if |order| == 0 then []
    else if order[0] < |height| && height[order[0]] >= l then [order[0]] + Level(order[1..], height, l)
    else Level(order[1..], height, l)
  }

  lemma {:induction false} LevelConcat(a: seq<nat>, b: seq<nat>, height: seq<nat>, l: nat)
    ensures Level(a + b, height, l) == Level(a, height, l) + Level(b, height, l)
  {
    if |a| == 0 {
      assert a + b == b;
    } else {
      assert (a + b)[1..] == a[1..] + b;
      LevelConcat(a[1..], b, height, l);
    }
  }

  lemma {:induction false} LevelMembers(order: seq<nat>, height: seq<nat>, l: nat)
    ensures forall x :: x in Level(order, height, l) <==> x in order && x < |height| && height[x] >= l
  {
    if |order| > 0 {
      LevelMembers(order[1..], height, l);
      assert order == [order[0]] + order[1..];
    }
  }

  lemma {:induction false} LevelDistinct(order: seq<nat>, height: seq<nat>, l: nat)
    requires Distinct(order)
    ensures Distinct(Level(order, height, l))
  {
    if |order| > 0 {
      LevelDistinct(order[1..], height, l);
      LevelMembers(order[1..], height, l);
      assert order[0] !in order[1..];
    }
  }

  lemma {:induction false} LevelZero(order: seq<nat>, height: seq<nat>)
    requires forall k :: 0 <= k < |order| ==> order[k] < |height|
    ensures Level(order, height, 0) == order
  {
    if |order| > 0 {
      LevelZero(order[1..], height);
    }
  }

  /** Heights of elements outside the list do not matter. */
  lemma {:induction false} LevelFrame(order: seq<nat>, height: seq<nat>, height': seq<nat>, l: nat)
    requires |height'| == |height|
    requires forall k :: 0 <= k < |order| ==> order[k] < |height| && height'[order[k]] == height[order[k]]
    ensures Level(order, height', l) == Level(order, height, l)
  {
    if |order| > 0 {
      LevelFrame(order[1..], height, height', l);
    }
  }

  /** Giving a new element height `level` and placing it between front and back. */
  lemma LevelPlace(front: seq<nat>, back: seq<nat>, i: nat, height: seq<nat>, level: nat, l: nat)
    requires i < |height| && i !in front && i !in back
    requires forall k :: 0 <= k < |front| ==> front[k] < |height|
    requires forall k :: 0 <= k < |back| ==> back[k] < |height|
    ensures Level(front + [i] + back, height[i := level], l)
      == Level(front, height, l) + (if level >= l then [i] else []) + Level(back, height, l)
  {
    var h' := height[i := level];
    assert Level([i], h', l) == if level >= l then [i] else [] by { assert [i][1..] == []; }
    hide Level;
    LevelConcat(front + [i], back, h', l);
    LevelConcat(front, [i], h', l);
    LevelFrame(front, height, h', l) by {
      forall k | 0 <= k < |front| ensures h'[front[k]] == height[front[k]] { assert front[k] in front; }
    }
    LevelFrame(back, height, h', l) by {
      forall k | 0 <= k < |back| ensures h'[back[k]] == height[back[k]] { assert back[k] in back; }
    }
  }

  /** Elements due no later than d; a prefix when the sequence is sorted. */
  function CountLe(order: seq<nat>, due: seq<int>, d: int): nat {
    if |order| == 0 || order[0] >= |due| || due[order[0]] > d then 0
    else 1 + CountLe(order[1..], due, d)
  }

  ghost predicate Sorted(order: seq<nat>, due: seq<int>) {
    && (forall k :: 0 <= k < |order| ==> order[k] < |due|)
    && (forall i, j :: 0 <= i < j < |order| ==> due[order[i]] <= due[order[j]])
  }

  lemma {:induction false} CountLeSplits(order: seq<nat>, due: seq<int>, d: int)
    requires Sorted(order, due)
    ensures var c := CountLe(order, due, d);
      && c <= |order|
      && (forall k :: 0 <= k < c ==> due[order[k]] <= d)
      && (forall k :: c <= k < |order| ==> due[order[k]] > d)
  {
    if |order| > 0 {
      CountLeSplits(order[1..], due, d);
      if due[order[0]] > d {
        assert forall k :: 0 < k < |order| ==> due[order[0]] <= due[order[k]];
      } else {
        var c := CountLe(order[1..], due, d);
        forall k | 0 <= k < |order|
          ensures k < c + 1 ==> due[order[k]] <= d
          ensures k >= c + 1 ==> due[order[k]] > d
        {
          if k > 0 {
            assert order[k] == order[1..][k - 1];
          }
        }
      }
    }
  }

  /** Stable insertion: after everything due no later, before everything due later. */
  function Enqueue(order: seq<nat>, due: seq<int>, q: nat, d: int): seq<nat>
    requires CountLe(order, due, d) <= |order|
  {
    Insert(order, CountLe(order, due, d), q)
  }

  lemma EnqueueSorted(order: seq<nat>, due: seq<int>, q: nat, d: int)
    requires Sorted(order, due) && Distinct(order) && q < |due| && q !in order
    ensures CountLe(order, due, d) <= |order|
    ensures Sorted(Enqueue(order, due, q, d), due[q := d]) && Distinct(Enqueue(order, due, q, d))
    ensures forall x :: x in Enqueue(order, due, q, d) <==> x in order || x == q
  {
    var c := CountLe(order, due, d);
    CountLeSplits(order, due, d);
    InsertMembers(order, c, q);
    InsertSorted(order, due, c, q, d);
  }

  lemma InsertSorted(order: seq<nat>, due: seq<int>, c: nat, q: nat, d: int)
    requires Sorted(order, due) && q < |due| && q !in order && c <= |order|
    requires forall k :: 0 <= k < c ==> due[order[k]] <= d
    requires forall k :: c <= k < |order| ==> due[order[k]] > d
    ensures Sorted(Insert(order, c, q), due[q := d])
  {
    InsertAt(order, c, q);
    var r, due' := Insert(order, c, q), due[q := d];
    hide Insert;
    forall k | 0 <= k < |r|
      ensures r[k] < |due'|
      ensures k < c ==> due'[r[k]] == due[order[k]]
      ensures k == c ==> due'[r[k]] == d
      ensures k > c ==> due'[r[k]] == due[order[k - 1]]
    {
    }
    forall i, j | 0 <= i < j < |r|
      ensures due'[r[i]] <= due'[r[j]]
    {
    }
  }
}
