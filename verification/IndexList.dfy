/** Singly linked lists threaded through arrays of indices, as the queue manager uses them. */
module IndexList {
  /** IDXLIST_INVAL. */
  const NONE: int := -1

  /** The k-th element of a list, or NONE past its end. */
  function At(list: seq<nat>, k: nat): int {
    if k < |list| then list[k] else NONE
  }

  /** Starting at `first` and following next pointers visits exactly `list`. */
  ghost predicate Chain(next: seq<int>, first: int, list: seq<nat>) {
    && first == At(list, 0)
    && (forall k :: 0 <= k < |list| ==> list[k] < |next|)
    && (forall k {:trigger list[k]} :: 0 <= k < |list| ==> next[list[k]] == At(list, k + 1))
  }

  ghost predicate Distinct(list: seq<nat>) {
    forall i, j :: 0 <= i < j < |list| ==> list[i] != list[j]
  }

  function Last(list: seq<nat>): int {
    if |list| == 0 then NONE else list[|list| - 1]
  }

  function Insert(list: seq<nat>, c: nat, q: nat): seq<nat>
    requires c <= |list|
  {
    list[..c] + [q] + list[c..]
  }

  /** Linking q in after the first c elements. */
  lemma ChainInsert(next: seq<int>, first: int, list: seq<nat>, c: nat, q: nat, next': seq<int>, first': int)
    requires Chain(next, first, list) && Distinct(list) && q !in list && q < |next| && c <= |list|
    requires next' == if c == 0 then next[q := first]
                      else next[q := next[list[c - 1]]][list[c - 1] := q]
    requires first' == if c == 0 then q else first
    ensures Chain(next', first', Insert(list, c, q))
  {
    var list' := Insert(list, c, q);
    InsertAt(list, c, q);
    hide Insert;
    forall k | 0 <= k < |list'|
      ensures list'[k] < |next'| && next'[list'[k]] == At(list', k + 1)
    {
      if k < c {
        assert list'[k] == list[k] != q;
        assert k < c - 1 ==> list[k] != list[c - 1] && list'[k + 1] == list[k + 1];
      } else if k > c {
        assert list'[k] == list[k - 1] != q;
        assert c > 0 ==> list[k - 1] != list[c - 1];
        assert At(list', k + 1) == At(list, k);
      }
    }
  }

  lemma InsertAt(list: seq<nat>, c: nat, q: nat)
    requires c <= |list|
    ensures var r := Insert(list, c, q);
      && |r| == |list| + 1
      && (forall k :: 0 <= k < |r| ==> r[k] == if k < c then list[k] else if k == c then q else list[k - 1])
  {
  }

  lemma InsertConcat(a: seq<nat>, b: seq<nat>, q: nat)
    ensures Insert(a + b, |a|, q) == a + [q] + b
  {
  }

  lemma InsertMembers(list: seq<nat>, c: nat, q: nat)
    requires c <= |list|
    ensures forall x :: x in Insert(list, c, q) <==> x in list || x == q
    ensures Distinct(list) && q !in list ==> Distinct(Insert(list, c, q))
  {
    InsertAt(list, c, q);
    assert list == list[..c] + list[c..];
  }

  /** Linking q in at the end, which is how the FIFO lists grow. */
  lemma ChainAppend(next: seq<int>, first: int, list: seq<nat>, q: nat, next': seq<int>, first': int)
    requires Chain(next, first, list) && Distinct(list) && q !in list && q < |next|
    requires next' == if |list| == 0 then next[q := NONE]
                      else next[q := NONE][Last(list) := q]
    requires first' == if |list| == 0 then q else first
    ensures Chain(next', first', list + [q]) && Distinct(list + [q])
  {
    var list' := list + [q];
    forall k | 0 <= k < |list'|
      ensures list'[k] < |next'| && next'[list'[k]] == At(list', k + 1)
    {
      if k < |list| {
        assert list'[k] == list[k];
      }
    }
  }

  lemma ChainPop(next: seq<int>, first: int, list: seq<nat>)
    requires Chain(next, first, list) && |list| > 0
    ensures Chain(next, next[list[0]], list[1..])
    ensures Distinct(list) ==> Distinct(list[1..]) && list[0] !in list[1..]
    ensures Last(list[1..]) == if |list| == 1 then NONE else Last(list)
  {
    forall k | 0 <= k < |list| - 1
      ensures next[list[1..][k]] == At(list[1..], k + 1)
    {
      assert list[1..][k] == list[k + 1];
    }
  }

  /** Changing next pointers outside the list does not disturb it. */
  lemma ChainFrame(next: seq<int>, first: int, list: seq<nat>, next': seq<int>)
    requires Chain(next, first, list) && |next'| == |next|
    requires forall i :: 0 <= i < |next| && i in list ==> next'[i] == next[i]
    ensures Chain(next', first, list)
  {
    forall k | 0 <= k < |list|
      ensures next'[list[k]] == At(list, k + 1)
    {
      assert list[k] in list;
    }
  }
}
