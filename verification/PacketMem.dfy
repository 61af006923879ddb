/** The packet memory allocator of one VM (tas/slow/packetmem.c): a singly linked free list that is
    searched first-fit, split, spliced and merged in place. */
module PacketMem {
  import opened PacketBlocks

  /** struct packetmem_handle. */
  class Handle {
    var base: nat
    var len: nat
    var next: Handle?

    constructor (base: nat, len: nat)
      ensures this.base == base && this.len == len && next == null
    {
      this.base, this.len, next := base, len, null;
    }
  }

  function At(nodes: seq<Handle>, i: int): Handle? {
    if 0 <= i < |nodes| then nodes[i] else null
  }

  /** The address ranges of a sequence of handles. */
  ghost predicate Matches(nodes: seq<Handle>, blocks: seq<Block>)
    reads (set h | h in nodes)`base, (set h | h in nodes)`len
  {
    && |nodes| == |blocks|
    && forall i {:trigger nodes[i]} :: 0 <= i < |nodes| ==> Block(nodes[i].base, nodes[i].len) == blocks[i]
  }

  ghost predicate Distinct(nodes: seq<Handle>) {
    forall i, j :: 0 <= i < j < |nodes| ==> nodes[i] != nodes[j]
  }

  ghost predicate Linked(first: Handle?, nodes: seq<Handle>)
    reads (set h | h in nodes)`next
  {
    && first == At(nodes, 0) && Distinct(nodes)
    && forall i {:trigger nodes[i].next} :: 0 <= i < |nodes| ==> nodes[i].next == At(nodes, i + 1)
  }

  ghost function Without(nodes: seq<Handle>, i: nat): (r: seq<Handle>)
    requires i < |nodes|
    ensures |r| == |nodes| - 1
  {
    seq(|nodes| - 1, k requires 0 <= k < |nodes| - 1 => nodes[if k < i then k else k + 1])
  }

  ghost function With(nodes: seq<Handle>, i: nat, h: Handle): (r: seq<Handle>)
    requires i <= |nodes|
    ensures |r| == |nodes| + 1
  {
    seq(|nodes| + 1, k requires 0 <= k <= |nodes| => if k < i then nodes[k] else if k == i then h else nodes[k - 1])
  }

  lemma WithoutEnds(s: seq<Handle>, i: nat)
    requires i < |s| && Distinct(s)
    ensures var r := Without(s, i);
      && Distinct(r) && (forall h :: h in r <==> h in s && h != s[i])
      && At(r, 0) == if i == 0 then At(s, 1) else At(s, 0)
  {
    var r := Without(s, i);
    forall h | h in s && h != s[i] ensures h in r {
      var k :| 0 <= k < |s| && s[k] == h;
      assert r[if k < i then k else k - 1] == h;
    }
  }

  lemma WithoutLinks(s: seq<Handle>, i: nat, k: nat)
    requires i < |s| && Distinct(s) && k < |s| - 1
    ensures var r, o := Without(s, i), if k < i then k else k + 1;
      r[k] == s[o] && At(r, k + 1) == if s[o] == At(s, i - 1) then At(s, i + 1) else At(s, o + 1)
  {
  }

  lemma WithoutKeeps(s: seq<Handle>, i: nat)
    requires i < |s|
    ensures forall k :: 0 <= k < i ==> Without(s, i)[k] == s[k]
  {
  }

  lemma WithEnds(s: seq<Handle>, i: nat, h: Handle)
    requires i <= |s| && Distinct(s) && h !in s
    ensures var r := With(s, i, h);
      && Distinct(r) && (forall x :: x in r <==> x in s || x == h)
      && r[i] == h && At(r, i + 1) == At(s, i) && At(r, 0) == if i == 0 then h else At(s, 0)
  {
    var r := With(s, i, h);
    forall x | x in s || x == h ensures x in r {
      if x == h {
        assert r[i] == h;
      } else {
        var k :| 0 <= k < |s| && s[k] == x;
        assert r[if k < i then k else k + 1] == x;
      }
    }
  }

  lemma WithLinks(s: seq<Handle>, i: nat, h: Handle, k: nat)
    requires i <= |s| && Distinct(s) && k <= |s| && k != i
    ensures var r, o := With(s, i, h), if k < i then k else k - 1;
      r[k] == s[o] && At(r, k + 1) == if s[o] == At(s, i - 1) then h else At(s, o + 1)
  {
  }

  lemma WithoutMatches(s: seq<Handle>, b: seq<Block>, i: nat)
    requires i < |s| && Matches(s, b)
    ensures Matches(Without(s, i), RemoveAt(b, i))
  {
  }

  lemma WithMatches(s: seq<Handle>, b: seq<Block>, i: nat, h: Handle)
    requires i <= |s| && Matches(s, b)
    ensures Matches(With(s, i, h), InsertAt(b, i, Block(h.base, h.len)))
  {
  }

  /** freelist[vmid], with the nodes on the list and the handles given out. */
  class Allocator {
    const lo: nat
    const hi: nat
    var first: Handle?
    ghost var nodes: seq<Handle>
    ghost var live: seq<Handle>
    ghost var freeBlocks: seq<Block>
    ghost var liveBlocks: seq<Block>

    /** The list holds the free blocks. */
    ghost predicate Listed()
      reads this, nodes
    {
      Linked(first, nodes) && Matches(nodes, freeBlocks)
    }

    /** The handles given out are not on the list and hold the live blocks. */
    ghost predicate Owned()
      reads this, live
    {
      Distinct(live) && (forall h <- live :: h !in nodes) && Matches(live, liveBlocks)
    }

    ghost predicate Valid()
      reads this, nodes, live
    {
      Listed() && Owned() && Tiled(freeBlocks, liveBlocks, lo, hi)
    }

    /** packetmem_init. */
    constructor (lo: nat, hi: nat)
      requires lo <= hi
      ensures Valid() && freeBlocks == [Block(lo, hi - lo)] && live == [] && this.lo == lo && this.hi == hi
    {
      var ph := new Handle(lo, hi - lo);
      this.lo, this.hi := lo, hi;
      first, nodes, live, freeBlocks, liveBlocks := ph, [ph], [], [Block(lo, hi - lo)], [];
      new;
      forall a: nat ensures Cover(freeBlocks, a) == if lo <= a < hi then 1 else 0 {
        assert freeBlocks[1..] == [];
      }
    }

    /** The first-fit search, with the predecessor. */
    method FirstFit(length: nat) returns (prev: Handle?, ph: Handle?, ghost i: nat)
      requires Listed()
      ensures i <= |nodes| && ph == At(nodes, i) && prev == At(nodes, i - 1)
      ensures forall j :: 0 <= j < i ==> freeBlocks[j].len < length
      ensures ph != null ==> length <= ph.len
    {
      prev, ph, i := null, first, 0;
      while ph != null && ph.len < length
        invariant i <= |nodes| && ph == At(nodes, i) && prev == At(nodes, i - 1)
        invariant forall j :: 0 <= j < i ==> freeBlocks[j].len < length
        decreases |nodes| - i
      {
        assert nodes[i].next == At(nodes, i + 1);
        prev, ph, i := ph, ph.next, i + 1;
      }
    }

    /** Take node i off the free list. */
    method Unlink(prev: Handle?, ph: Handle, ghost i: nat)
      requires Listed() && i < |nodes| && ph == nodes[i] && prev == At(nodes, i - 1)
      modifies `first, `nodes, `freeBlocks, (set h | h in nodes)`next
      ensures Listed() && ph !in nodes && nodes == Without(old(nodes), i) && (forall h <- nodes :: h in old(nodes))
      ensures freeBlocks == RemoveAt(old(freeBlocks), i)
    {
      hide Distinct, Without, RemoveAt;
      ghost var s, b := nodes, freeBlocks;
      WithoutEnds(s, i);
      WithoutMatches(s, freeBlocks, i);
      assert ph.next == At(s, i + 1);
      if prev == null {
        first := ph.next;
      } else {
        prev.next := ph.next;
      }
      nodes := Without(s, i);
      freeBlocks := RemoveAt(freeBlocks, i);
      forall k {:trigger nodes[k]} | 0 <= k < |nodes| ensures nodes[k].next == At(nodes, k + 1) {
        hide At;
        WithoutLinks(s, i, k);
      }
      assert Linked(first, nodes);
    }

    /** Put a handle that is not given out into the free list at position i. */
    method Link(prev: Handle?, h: Handle, ghost i: nat)
      requires Listed() && i <= |nodes| && prev == At(nodes, i - 1) && h !in nodes
      modifies `first, `nodes, `freeBlocks, (set x | x in nodes)`next, h`next
      ensures Listed() && nodes == With(old(nodes), i, h) && (forall x :: x in nodes <==> x in old(nodes) || x == h)
      ensures freeBlocks == InsertAt(old(freeBlocks), i, Block(h.base, h.len))
    {
      hide Distinct, With, InsertAt;
      ghost var s := nodes;
      WithEnds(s, i, h);
      WithMatches(s, freeBlocks, i, h);
      if prev == null {
        h.next := first;
        first := h;
      } else {
        assert prev.next == At(s, i);
        h.next := prev.next;
        prev.next := h;
      }
      nodes := With(s, i, h);
      freeBlocks := InsertAt(freeBlocks, i, Block(h.base, h.len));
      forall k {:trigger nodes[k]} | 0 <= k < |nodes| ensures nodes[k].next == At(nodes, k + 1) {
        hide At;
        if k != i {
          WithLinks(s, i, h, k);
        }
      }
      assert Linked(first, nodes);
    }

    /** packetmem_alloc, first fit; `spare` says whether a handle can be allocated for a split. It fails
        only when no free block is long enough or a split lacks a handle, and then changes nothing. */
    method Alloc(length: nat, spare: bool) returns (handle: Handle?, ghost i: nat)
      requires Valid()
      modifies this, (set h | h in nodes)
      ensures Valid() && i <= |old(freeBlocks)| && (forall j :: 0 <= j < i ==> old(freeBlocks)[j].len < length)
      ensures handle == null <==>
        i == |old(freeBlocks)| || (!spare && length < old(freeBlocks)[i].len)
      ensures handle == null ==>
        nodes == old(nodes) && live == old(live) && freeBlocks == old(freeBlocks) && liveBlocks == old(liveBlocks)
      ensures handle != null ==>
        && length <= old(freeBlocks)[i].len && freeBlocks == Carved(old(freeBlocks), i, length)
        && live == old(live) + [handle] && liveBlocks == old(liveBlocks) + [Block(handle.base, length)]
        && handle.base == old(freeBlocks)[i].base
    {
      hide Cover;
      var prev, ph;
      prev, ph, i := FirstFit(length);
      if ph == null {
        return null, i;
      }
      if ph.len > length && !spare {
        return null, i;
      }
      CarvedTiled(freeBlocks, liveBlocks, lo, hi, i, length);
      if ph.len == length {
        handle := CutWhole(prev, ph, i);
      } else {
        handle := CutFront(ph, length, i);
      }
    }

    method CutWhole(prev: Handle?, ph: Handle, ghost i: nat) returns (handle: Handle)
      requires Listed() && Owned() && i < |nodes| && ph == nodes[i] && prev == At(nodes, i - 1)
      modifies this, (set h | h in nodes)`next
      ensures Listed() && Owned() && handle == ph && freeBlocks == RemoveAt(old(freeBlocks), i)
      ensures live == old(live) + [handle] && liveBlocks == old(liveBlocks) + [old(freeBlocks)[i]]
    {
      hide RemoveAt, Without, Linked;
      assert ph in nodes && ph !in live;
      assert Block(ph.base, ph.len) == freeBlocks[i];
      Unlink(prev, ph, i);
      handle := ph;
      live, liveBlocks := live + [ph], liveBlocks + [Block(ph.base, ph.len)];
    }

    method CutFront(ph: Handle, length: nat, ghost i: nat) returns (handle: Handle)
      requires Listed() && Owned() && i < |nodes| && ph == nodes[i] && length < ph.len
      modifies `live, `liveBlocks, `freeBlocks, ph`base, ph`len
      ensures Listed() && Owned() && handle.base == old(ph.base)
      ensures freeBlocks == old(freeBlocks)[i := Block(old(ph.base) + length, old(ph.len) - length)]
      ensures live == old(live) + [handle] && liveBlocks == old(liveBlocks) + [Block(handle.base, length)]
    {
      handle := new Handle(ph.base, length);
      ph.base, ph.len := ph.base + length, ph.len - length;
      freeBlocks := freeBlocks[i := Block(ph.base, ph.len)];
      live, liveBlocks := live + [handle], liveBlocks + [Block(handle.base, length)];
    }

    /** The search of packetmem_free for the node to insert after. */
    method FreePlace(base: nat) returns (prev: Handle?, ghost k: nat)
      requires Listed()
      ensures StopsAt(freeBlocks, base, k) && prev == At(nodes, k - 1)
    {
      var ph := first;
      prev, k := null, 0;
      if |nodes| > 0 { assert nodes[0].next == At(nodes, 1); }
      while ph != null && ph.next != null && ph.next.base < base
        invariant (k < |nodes| || k == |nodes| == 0) && ph == At(nodes, k) && prev == At(nodes, k - 1)
        invariant ph != null ==> ph.next == At(nodes, k + 1)
        invariant forall j :: 0 < j <= k ==> freeBlocks[j].base < base
        decreases |nodes| - k
      {
        assert nodes[k + 1].base == freeBlocks[k + 1].base;
        prev, ph, k := ph, ph.next, k + 1;
      }
      if k + 1 < |nodes| {
        assert nodes[k + 1].base == freeBlocks[k + 1].base;
      }
    }

    /** Absorb the list successor, which starts where this block ends. */
    method JoinNext(ph: Handle, ghost i: nat)
      requires Listed() && i + 1 < |nodes| && ph == nodes[i] && Adjacent(freeBlocks, i)
      modifies `first, `nodes, `freeBlocks, (set h | h in nodes)`next, ph`len
      ensures Listed() && nodes == Without(old(nodes), i + 1) && (forall h <- nodes :: h in old(nodes))
      ensures freeBlocks == Joined(old(freeBlocks), i)
    {
      hide RemoveAt, Without;
      var next := ph.next;
      assert next == nodes[i + 1];
      assert next.len == freeBlocks[i + 1].len && ph.len == freeBlocks[i].len && ph.base == freeBlocks[i].base;
      ph.len := ph.len + next.len;
      freeBlocks := freeBlocks[i := Block(ph.base, ph.len)];
      Unlink(ph, next, i + 1);
    }

    /** merge_items. */
    method MergeItems(prev: Handle?, ghost k: nat)
      requires Listed() && k < |nodes| && prev == At(nodes, k - 1)
      modifies `first, `nodes, `freeBlocks, (set h | h in nodes)`next, (set h | h in nodes)`len
      ensures Listed() && (forall h <- nodes :: h in old(nodes)) && freeBlocks == Merged(old(freeBlocks), k)
    {
      hide Joined, Linked;
      var ph;
      ghost var m := k;
      if prev != null {
        ph := NextOf(prev, k - 1);
        if prev.base + prev.len == ph.base {
          JoinNext(prev, k - 1);
          WithoutKeeps(old(nodes), k);
          ph, m := prev, k - 1;
        }
      } else {
        ph := FirstOf();
      }
      var next := NextOf(ph, m);
      if next != null && ph.base + ph.len == next.base {
        JoinNext(ph, m);
      }
    }

    method FirstOf() returns (ph: Handle?)
      requires Listed()
      ensures ph == At(nodes, 0)
    {
      ph := first;
    }

    method NextOf(ph: Handle, ghost i: nat) returns (next: Handle?)
      requires Listed() && i < |nodes| && ph == nodes[i]
      ensures next == At(nodes, i + 1)
    {
      next := ph.next;
    }

    /** packetmem_free. */
    method Free(handle: Handle, ghost j: nat) returns (ghost k: nat)
      requires Valid() && j < |live| && live[j] == handle
      modifies this, (set h | h in nodes)`next, (set h | h in nodes)`len, handle`next, handle`len
      ensures Valid() && live == Without(old(live), j) && liveBlocks == RemoveAt(old(liveBlocks), j)
      ensures StopsAt(old(freeBlocks), old(liveBlocks)[j].base, k)
      ensures freeBlocks == Freed(old(freeBlocks), k, old(liveBlocks)[j])
    {
      hide Cover, Without, RemoveAt, Merged, InsertAt, Linked;
      assert Block(handle.base, handle.len) == liveBlocks[j];
      WithoutEnds(live, j);
      var prev;
      prev, k := FreePlace(handle.base);
      WithoutMatches(live, liveBlocks, j);
      FreedTiled(freeBlocks, liveBlocks, lo, hi, k, j);
      ghost var rest, blocks := Without(live, j), RemoveAt(liveBlocks, j);
      live, liveBlocks := rest, blocks;
      Link(prev, handle, k);
      assert Owned();
      MergeItems(prev, k);
      assert Owned();
    }
  }
}
