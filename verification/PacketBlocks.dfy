/** The free list of the packet memory allocator as a sequence of address ranges
    (tas/slow/packetmem.c). */
module PacketBlocks {
  datatype Block = Block(base: nat, len: nat)

  function Covers(b: Block, a: nat): nat {
    if b.base <= a < b.base + b.len then 1 else 0
  }

  /** How many blocks contain address a. */
  function Cover(blocks: seq<Block>, a: nat): nat {
    if |blocks| == 0 then 0 else Covers(blocks[0], a) + Cover(blocks[1..], a)
  }

  /** Free and live blocks contain every address of lo .. hi - 1 exactly once, and no other. */
  ghost predicate Tiled(free: seq<Block>, live: seq<Block>, lo: nat, hi: nat) {
    forall a: nat :: Cover(free, a) + Cover(live, a) == if lo <= a < hi then 1 else 0
  }

  lemma {:induction false} CoverConcat(x: seq<Block>, y: seq<Block>, a: nat)
    ensures Cover(x + y, a) == Cover(x, a) + Cover(y, a)
  {
    if |x| == 0 {
      assert x + y == y;
    } else {
      assert (x + y)[1..] == x[1..] + y;
      CoverConcat(x[1..], y, a);
    }
  }

  function RemoveAt(s: seq<Block>, i: nat): (r: seq<Block>)
    requires i < |s|
    ensures |r| == |s| - 1
  {
    s[..i] + s[i + 1..]
  }

  function InsertAt(s: seq<Block>, i: nat, b: Block): (r: seq<Block>)
    requires i <= |s|
    ensures |r| == |s| + 1
  {
    s[..i] + [b] + s[i..]
  }

  lemma CoverRemove(s: seq<Block>, i: nat, a: nat)
    requires i < |s|
    ensures Cover(RemoveAt(s, i), a) + Covers(s[i], a) == Cover(s, a)
  {
    assert s == s[..i] + ([s[i]] + s[i + 1..]);
    CoverConcat(s[..i], [s[i]] + s[i + 1..], a);
    CoverConcat(s[..i], s[i + 1..], a);
    CoverConcat([s[i]], s[i + 1..], a);
  }

  lemma CoverInsert(s: seq<Block>, i: nat, b: Block, a: nat)
    requires i <= |s|
    ensures Cover(InsertAt(s, i, b), a) == Cover(s, a) + Covers(b, a)
  {
    var r := InsertAt(s, i, b);
    assert r[i] == b && RemoveAt(r, i) == s;
    CoverRemove(r, i, a);
  }

  lemma CoverUpdate(s: seq<Block>, i: nat, b: Block, a: nat)
    requires i < |s|
    ensures Cover(s[i := b], a) + Covers(s[i], a) == Cover(s, a) + Covers(b, a)
  {
    assert RemoveAt(s[i := b], i) == RemoveAt(s, i);
    CoverRemove(s[i := b], i, a);
    CoverRemove(s, i, a);
  }

  /** The free list after cutting n bytes off the front of block i. */
  function Carved(free: seq<Block>, i: nat, n: nat): seq<Block>
    requires i < |free| && n <= free[i].len
  {
    if free[i].len == n then RemoveAt(free, i) else free[i := Block(free[i].base + n, free[i].len - n)]
  }

  /** Allocation neither loses nor duplicates a byte. */
  lemma CarvedCovers(free: seq<Block>, i: nat, n: nat, a: nat)
    requires i < |free| && n <= free[i].len
    ensures Cover(Carved(free, i, n), a) + Covers(Block(free[i].base, n), a) == Cover(free, a)
  {
    if free[i].len == n {
      CoverRemove(free, i, a);
    } else {
      CoverUpdate(free, i, Block(free[i].base + n, free[i].len - n), a);
    }
  }

  lemma CarvedTiled(free: seq<Block>, live: seq<Block>, lo: nat, hi: nat, i: nat, n: nat)
    requires i < |free| && n <= free[i].len && Tiled(free, live, lo, hi)
    ensures Tiled(Carved(free, i, n), live + [Block(free[i].base, n)], lo, hi)
  {
    hide Carved;
    var b := Block(free[i].base, n);
    forall a: nat
      ensures Cover(Carved(free, i, n), a) + Cover(live + [b], a) == Cover(free, a) + Cover(live, a)
    {
      CarvedCovers(free, i, n, a);
      CoverConcat(live, [b], a);
      assert [b][1..] == [];
    }
  }

  /** Where packetmem_free inserts: before the first block whose successor does not start below base. */
  predicate StopsAt(free: seq<Block>, base: nat, k: nat) {
    && (k < |free| || k == |free| == 0)
    && (k + 1 < |free| ==> free[k + 1].base >= base)
    && forall j :: 0 < j <= k ==> free[j].base < base
  }

  /** Block i and its list successor as one block. */
  function Joined(s: seq<Block>, i: nat): (r: seq<Block>)
    requires i + 1 < |s|
    ensures |r| == |s| - 1
  {
    RemoveAt(s[i := Block(s[i].base, s[i].len + s[i + 1].len)], i + 1)
  }

  predicate Adjacent(s: seq<Block>, i: nat) {
    i + 1 < |s| && s[i].base + s[i].len == s[i + 1].base
  }

  /** merge_items around position k: first with the list predecessor, then with the successor. */
  function Merged(s: seq<Block>, k: nat): seq<Block>
    requires k < |s|
  {
    var (t, m) := if k > 0 && Adjacent(s, k - 1) then (Joined(s, k - 1), k - 1) else (s, k);
    if Adjacent(t, m) then Joined(t, m) else t
  }

  lemma JoinedCovers(s: seq<Block>, i: nat, a: nat)
    requires Adjacent(s, i)
    ensures Cover(Joined(s, i), a) == Cover(s, a)
  {
    hide Cover, RemoveAt;
    var b := Block(s[i].base, s[i].len + s[i + 1].len);
    CoverUpdate(s, i, b, a);
    CoverRemove(s[i := b], i + 1, a);
  }

  lemma MergedCovers(s: seq<Block>, k: nat, a: nat)
    requires k < |s|
    ensures Cover(Merged(s, k), a) == Cover(s, a)
  {
    hide Cover, Joined;
    var (t, m) := if k > 0 && Adjacent(s, k - 1) then (Joined(s, k - 1), k - 1) else (s, k);
    if k > 0 && Adjacent(s, k - 1) {
      JoinedCovers(s, k - 1, a);
    }
    if Adjacent(t, m) {
      JoinedCovers(t, m, a);
    }
  }

  /** Exactly the list neighbours that are adjacent in memory are joined, before and behind. */
  lemma MergedExactly(s: seq<Block>, k: nat)
    requires k < |s|
    ensures |Merged(s, k)| + (if k > 0 && Adjacent(s, k - 1) then 1 else 0) + (if Adjacent(s, k) then 1 else 0) == |s|
    ensures var r := Merged(s, k);
      var first, last := if k > 0 && Adjacent(s, k - 1) then k - 1 else k, if Adjacent(s, k) then k + 1 else k;
      && first < |r| && r[..first] == s[..first] && r[first + 1..] == s[last + 1..]
      && r[first].base == s[first].base && r[first].base + r[first].len == s[last].base + s[last].len
  {
    var (t, m) := if k > 0 && Adjacent(s, k - 1) then (Joined(s, k - 1), k - 1) else (s, k);
    assert Adjacent(t, m) <==> Adjacent(s, k);
  }

  function Freed(free: seq<Block>, k: nat, b: Block): seq<Block>
    requires k <= |free|
  {
    Merged(InsertAt(free, k, b), k)
  }

  /** Freeing gives back exactly the bytes of the block, whatever gets merged. */
  lemma FreedCovers(free: seq<Block>, k: nat, b: Block, a: nat)
    requires k <= |free|
    ensures Cover(Freed(free, k, b), a) == Cover(free, a) + Covers(b, a)
  {
    hide Cover, InsertAt, Merged;
    CoverInsert(free, k, b, a);
    MergedCovers(InsertAt(free, k, b), k, a);
  }

  lemma FreedTiled(free: seq<Block>, live: seq<Block>, lo: nat, hi: nat, k: nat, j: nat)
    requires k <= |free| && j < |live| && Tiled(free, live, lo, hi)
    ensures Tiled(Freed(free, k, live[j]), RemoveAt(live, j), lo, hi)
  {
    hide Freed, RemoveAt, Cover;
    forall a: nat
      ensures Cover(Freed(free, k, live[j]), a) + Cover(RemoveAt(live, j), a) == Cover(free, a) + Cover(live, a)
    {
      FreedCovers(free, k, live[j], a);
      CoverRemove(live, j, a);
    }
  }

  ghost predicate Ascending(s: seq<Block>) {
    forall i, j :: 0 <= i < j < |s| ==> s[i].base < s[j].base
  }

  /** Insertion keeps an address-ordered list in order exactly when the block goes to the front: it is
      put before, not after, the last block that starts below it. */
  lemma InOrderIff(free: seq<Block>, k: nat, b: Block)
    requires Ascending(free) && StopsAt(free, b.base, k) && forall i :: 0 <= i < |free| ==> free[i].base != b.base
    ensures Ascending(InsertAt(free, k, b)) <==> |free| == 0 || b.base < free[0].base
  {
    var r := InsertAt(free, k, b);
    if |free| > 0 {
      assert r[k] == b && r[k + 1] == free[k];
      if b.base < free[0].base {
        assert k == 0;
        assert forall i :: 0 < i < |r| ==> r[i] == free[i - 1];
      } else {
        assert free[k].base < b.base;
      }
    }
  }

  /** The first free block of at least n bytes, if any. */
  function FirstFit(free: seq<Block>, n: nat): (i: nat)
    ensures i <= |free| && (forall j :: 0 <= j < i ==> free[j].len < n) && (i < |free| ==> n <= free[i].len)
  {
    if |free| == 0 || n <= free[0].len then 0 else 1 + FirstFit(free[1..], n)
  }

  function PlaceFrom(free: seq<Block>, base: nat, k: nat): (r: nat)
    requires (k < |free| || k == |free| == 0) && forall j :: 0 < j <= k ==> free[j].base < base
    ensures StopsAt(free, base, r)
    decreases |free| - k
  {
    if k + 1 < |free| && free[k + 1].base < base then PlaceFrom(free, base, k + 1) else k
  }

  datatype Memory = Memory(free: seq<Block>, live: seq<Block>)
  datatype Op = Alloc(n: nat) | Free(j: nat)

  function Step(m: Memory, op: Op): Memory {
    match op
    case Alloc(n) =>
      var i := FirstFit(m.free, n);
      if i == |m.free| then m
      else Memory(Carved(m.free, i, n), m.live + [Block(m.free[i].base, n)])
    case Free(j) =>
      if j >= |m.live| then m
      else Memory(Freed(m.free, PlaceFrom(m.free, m.live[j].base, 0), m.live[j]), RemoveAt(m.live, j))
  }

  function Run(m: Memory, ops: seq<Op>): Memory
    decreases |ops|
  {
    if |ops| == 0 then m else Run(Step(m, ops[0]), ops[1..])
  }

  /** However allocations and releases are mixed, no byte is lost and no two blocks overlap. */
  lemma {:induction false} RunTiled(m: Memory, ops: seq<Op>, lo: nat, hi: nat)
    requires Tiled(m.free, m.live, lo, hi)
    ensures var r := Run(m, ops); Tiled(r.free, r.live, lo, hi)
    decreases |ops|
  {
    hide Tiled, Carved, Freed, RemoveAt;
    if |ops| > 0 {
      match ops[0] {
        case Alloc(n) =>
          var i := FirstFit(m.free, n);
          if i < |m.free| {
            CarvedTiled(m.free, m.live, lo, hi, i, n);
          }
        case Free(j) =>
          if j < |m.live| {
            FreedTiled(m.free, m.live, lo, hi, PlaceFrom(m.free, m.live[j].base, 0), j);
          }
      }
      RunTiled(Step(m, ops[0]), ops[1..], lo, hi);
    }
  }

  lemma CarveExample(base: nat, len: nat, live: seq<Block>)
    requires len > 10
    ensures Step(Memory([Block(base, len)], live), Alloc(10))
      == Memory([Block(base + 10, len - 10)], live + [Block(base, 10)])
  {
  }

  lemma FreeThirdExample()
    ensures Step(Memory([Block(30, 70)], [Block(0, 10), Block(10, 10), Block(20, 10)]), Free(2))
      == Memory([Block(20, 80)], [Block(0, 10), Block(10, 10)])
  {
    var s := InsertAt([Block(30, 70)], 0, Block(20, 10));
    assert s == [Block(20, 10), Block(30, 70)] && Joined(s, 0) == [Block(20, 80)];
  }

  lemma FreeFirstExample()
    ensures Step(Memory([Block(20, 80)], [Block(0, 10), Block(10, 10)]), Free(0))
      == Memory([Block(0, 10), Block(20, 80)], [Block(10, 10)])
  {
    assert InsertAt([Block(20, 80)], 0, Block(0, 10)) == [Block(0, 10), Block(20, 80)];
  }

  lemma FreeSecondExample()
    ensures Step(Memory([Block(0, 10), Block(20, 80)], [Block(10, 10)]), Free(0))
      == Memory([Block(10, 10), Block(0, 10), Block(20, 80)], [])
  {
    assert InsertAt([Block(0, 10), Block(20, 80)], 0, Block(10, 10)) == [Block(10, 10), Block(0, 10), Block(20, 80)];
  }

  /** Because the list does not stay in address order, memory can stay in pieces with nothing given out:
      of 100 bytes, three blocks of 10 are taken and given back in the order third, first, second. */
  lemma StaysInPieces()
    ensures var m := Run(Memory([Block(0, 100)], []), [Alloc(10), Alloc(10), Alloc(10), Free(2), Free(0), Free(0)]);
      m == Memory([Block(10, 10), Block(0, 10), Block(20, 80)], []) && forall b <- m.free :: b.len < 100
  {
    hide Step, Run;
    CarveExample(0, 100, []);
    CarveExample(10, 90, [Block(0, 10)]);
    CarveExample(20, 80, [Block(0, 10), Block(10, 10)]);
    FreeThirdExample();
    FreeFirstExample();
    FreeSecondExample();
    var three := [Block(0, 10), Block(10, 10), Block(20, 10)];
    var none: seq<Block> := [];
    assert none + [Block(0, 10)] == [Block(0, 10)] && [Block(0, 10)] + [Block(10, 10)] == three[..2];
    assert three[..2] + [Block(20, 10)] == three && three[..2] == [Block(0, 10), Block(10, 10)];
    var rest: seq<Op> := [];
    RunDone(Memory([Block(10, 10), Block(0, 10), Block(20, 80)], []));
    RunFirst(Memory([Block(0, 10), Block(20, 80)], [Block(10, 10)]), Free(0), rest);
    rest := [Free(0)] + rest;
    RunFirst(Memory([Block(20, 80)], three[..2]), Free(0), rest);
    rest := [Free(0)] + rest;
    RunFirst(Memory([Block(30, 70)], three), Free(2), rest);
    rest := [Free(2)] + rest;
    RunFirst(Memory([Block(20, 80)], three[..2]), Alloc(10), rest);
    rest := [Alloc(10)] + rest;
    RunFirst(Memory([Block(10, 90)], [Block(0, 10)]), Alloc(10), rest);
    rest := [Alloc(10)] + rest;
    RunFirst(Memory([Block(0, 100)], []), Alloc(10), rest);
    assert [Alloc(10)] + rest == [Alloc(10), Alloc(10), Alloc(10), Free(2), Free(0), Free(0)];
  }

  lemma RunDone(m: Memory)
    ensures Run(m, []) == m
  {
  }

  lemma RunFirst(m: Memory, op: Op, rest: seq<Op>)
    ensures Run(m, [op] + rest) == Run(Step(m, op), rest)
  {
    assert ([op] + rest)[1..] == rest;
  }
}
