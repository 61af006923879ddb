/** Counting for the receive-side-scaling redirection table (tas/fast/network.c). */
module RssTable {
  /** How many entries of the table name core c. */
  function Count(table: seq<nat>, c: nat): nat {
    if |table| == 0 then 0
    else Count(table[..|table| - 1], c) + if table[|table| - 1] == c then 1 else 0
  }

  function Total(buckets: seq<nat>): nat {
    if |buckets| == 0 then 0 else Total(buckets[..|buckets| - 1]) + buckets[|buckets| - 1]
  }

  lemma {:induction false} CountUpdate(table: seq<nat>, k: nat, j: nat, c: nat)
    requires k < |table|
    ensures Count(table[k := j], c) + (if table[k] == c then 1 else 0) == Count(table, c) + if j == c then 1 else 0
  {
    var n := |table| - 1;
    if k == n {
      assert table[k := j][..n] == table[..n];
    } else {
      CountUpdate(table[..n], k, j, c);
      assert table[k := j][..n] == table[..n][k := j];
    }
  }

  /** A core with a positive count has an entry. */
  lemma {:induction false} CountFinds(table: seq<nat>, c: nat) returns (k: nat)
    requires Count(table, c) > 0
    ensures k < |table| && table[k] == c
  {
    var n := |table| - 1;
    if table[n] == c {
      k := n;
    } else {
      k := CountFinds(table[..n], c);
    }
  }

  lemma {:induction false} CountSome(table: seq<nat>, k: nat)
    requires k < |table|
    ensures Count(table, table[k]) > 0
  {
    var n := |table| - 1;
    if k < n {
      CountSome(table[..n], k);
      assert table[..n][k] == table[k];
    }
  }

  lemma {:induction false} CountNone(table: seq<nat>, c: nat)
    requires forall k :: 0 <= k < |table| ==> table[k] != c
    ensures Count(table, c) == 0
  {
    if |table| > 0 {
      CountNone(table[..|table| - 1], c);
    }
  }

  lemma {:induction false} TotalUpdate(buckets: seq<nat>, c: nat, v: nat)
    requires c < |buckets|
    ensures Total(buckets[c := v]) + buckets[c] == Total(buckets) + v
  {
    var n := |buckets| - 1;
    if c == n {
      assert buckets[c := v][..n] == buckets[..n];
    } else {
      TotalUpdate(buckets[..n], c, v);
      assert buckets[c := v][..n] == buckets[..n][c := v];
    }
  }

  /** Pigeonhole: if no bucket exceeds m, the total is at most m for each. */
  lemma {:induction false} Pigeonhole(buckets: seq<nat>, m: nat)
    requires forall c :: 0 <= c < |buckets| ==> buckets[c] <= m
    ensures Total(buckets) <= m * |buckets|
  {
    if |buckets| > 0 {
      Pigeonhole(buckets[..|buckets| - 1], m);
      assert m * |buckets| == m * (|buckets| - 1) + m;
    }
  }

  lemma {:induction false} PigeonholeBelow(buckets: seq<nat>, m: nat)
    requires forall c :: 0 <= c < |buckets| ==> m <= buckets[c]
    ensures m * |buckets| <= Total(buckets)
  {
    if |buckets| > 0 {
      PigeonholeBelow(buckets[..|buckets| - 1], m);
      assert m * |buckets| == m * (|buckets| - 1) + m;
    }
  }

  /** Counting the entries core by core counts every entry once. */
  lemma {:induction false} CountsTotal(table: seq<nat>, buckets: seq<nat>)
    requires forall k :: 0 <= k < |table| ==> table[k] < |buckets|
    requires forall c :: 0 <= c < |buckets| ==> buckets[c] == Count(table, c)
    ensures Total(buckets) == |table|
  {
    if |table| == 0 {
      Pigeonhole(buckets, 0);
    } else {
      var n := |table| - 1;
      var c := table[n];
      var rest := buckets[c := (buckets[c] - 1) as nat];
      assert table[..n + 1] == table;
      CountsTotal(table[..n], rest);
      TotalUpdate(buckets, c, buckets[c] - 1);
    }
  }

  /** A bucket beyond a prefix is not part of the prefix's total. */
  lemma {:induction false} TotalPrefix(buckets: seq<nat>, n: nat, c: nat)
    requires n <= c < |buckets|
    ensures Total(buckets[..n]) + buckets[c] <= Total(buckets)
    decreases |buckets|
  {
    var l := |buckets| - 1;
    if c < l {
      TotalPrefix(buckets[..l], n, c);
      assert buckets[..l][..n] == buckets[..n];
    } else if n < l {
      TotalPrefix(buckets[..l], n, n);
      assert buckets[..l][..n] == buckets[..n];
    }
  }
}
