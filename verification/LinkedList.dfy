/** The intrusive doubly linked lists of the timer manager and of the epoll emulation. */
module LinkedList {
  /** The list pointers of a structure, with what the structure holds besides. */
  class Node<T> {
    var next: Node?<T>
    var prev: Node?<T>
    var data: T

    constructor (data: T)
      ensures this.data == data && next == null && prev == null
    {
      next, prev, this.data := null, null, data;
    }
  }

  function Successor<T>(nodes: seq<Node<T>>, i: int): Node?<T> {
    if 0 <= i < |nodes| then nodes[i] else null
  }

  ghost function Inserted<T>(nodes: seq<Node<T>>, c: nat, t: Node<T>): (r: seq<Node<T>>)
    requires c <= |nodes|
    ensures |r| == |nodes| + 1
  {
    seq(|nodes| + 1, i requires 0 <= i <= |nodes| => if i < c then nodes[i] else if i == c then t else nodes[i - 1])
  }

  ghost function Removed<T>(nodes: seq<Node<T>>, c: nat): (r: seq<Node<T>>)
    requires c < |nodes|
    ensures |r| == |nodes| - 1
  {
    seq(|nodes| - 1, i requires 0 <= i < |nodes| - 1 => if i < c then nodes[i] else nodes[i + 1])
  }

  ghost predicate Distinct<T>(nodes: seq<Node<T>>) {
    forall i, j :: 0 <= i < j < |nodes| ==> nodes[i] != nodes[j]
  }

  lemma InsertedEnds<T>(s: seq<Node<T>>, c: nat, t: Node<T>)
    requires c <= |s| && Distinct(s) && t !in s
    ensures var r := Inserted(s, c, t);
      && Distinct(r) && r[c] == t
      && Successor(r, c + 1) == Successor(s, c) && Successor(r, c - 1) == Successor(s, c - 1)
      && Successor(r, 0) == (if c == 0 then t else Successor(s, 0))
      && Successor(r, |s|) == (if c == |s| then t else Successor(s, |s| - 1))
  {
  }

  lemma RemovedEnds<T>(s: seq<Node<T>>, c: nat)
    requires c < |s| && Distinct(s)
    ensures var r := Removed(s, c);
      && Distinct(r) && s[c] !in r
      && Successor(r, 0) == (if c == 0 then Successor(s, 1) else Successor(s, 0))
      && Successor(r, |s| - 2) == (if c == |s| - 1 then Successor(s, |s| - 2) else Successor(s, |s| - 1))
  {
  }

  /** Where the node at position i of the longer list came from. */
  ghost function Before(c: nat, i: int): int {
    if i < c then i else i - 1
  }

  /** Where the node at position i of the shorter list came from. */
  ghost function Past(c: nat, i: int): int {
    if i < c then i else i + 1
  }

  lemma InsertedLinks<T>(s: seq<Node<T>>, c: nat, t: Node<T>, i: int)
    requires Distinct(s) && c <= |s| && 0 <= i <= |s| && i != c
    ensures var r, k := Inserted(s, c, t), Before(c, i);
      && 0 <= k < |s| && r[i] == s[k]
      && Successor(r, i + 1) == (if s[k] == Successor(s, c - 1) then t else Successor(s, k + 1))
      && Successor(r, i - 1) == (if s[k] == Successor(s, c) then t else Successor(s, k - 1))
  {
  }

  lemma RemovedLinks<T>(s: seq<Node<T>>, c: nat, i: int)
    requires Distinct(s) && c < |s| && 0 <= i < |s| - 1
    ensures var r, k := Removed(s, c), Past(c, i);
      && 0 <= k < |s| && r[i] == s[k]
      && Successor(r, i + 1) == (if s[k] == Successor(s, c - 1) then Successor(s, c + 1) else Successor(s, k + 1))
      && Successor(r, i - 1) == (if s[k] == Successor(s, c + 1) then Successor(s, c - 1) else Successor(s, k - 1))
  {
  }

  /** The list pointers visit `nodes` in order, in both directions. */
  ghost predicate Doubly<T>(nodes: seq<Node<T>>)
    reads (set t | t in nodes)`next, (set t | t in nodes)`prev
  {
    && Distinct(nodes)
    && (forall i {:trigger nodes[i].next} :: 0 <= i < |nodes| ==> nodes[i].next == Successor(nodes, i + 1))
    && (forall i {:trigger nodes[i].prev} :: 0 <= i < |nodes| ==> nodes[i].prev == Successor(nodes, i - 1))
  }

  /** The pointers once the node at position c has been bypassed, in terms of the list as it was. */
  ghost predicate Bypassing<T>(nodes: seq<Node<T>>, c: nat)
    requires c < |nodes|
    reads nodes
  {
    var p, n := Successor(nodes, c - 1), Successor(nodes, c + 1);
    && (forall k {:trigger nodes[k].next} :: 0 <= k < |nodes| ==>
         nodes[k].next == if nodes[k] == p then n else Successor(nodes, k + 1))
    && (forall k {:trigger nodes[k].prev} :: 0 <= k < |nodes| ==>
         nodes[k].prev == if nodes[k] == n then p else Successor(nodes, k - 1))
  }

  /** A bypassed node is out of the list. */
  lemma BypassedDoubly<T>(s: seq<Node<T>>, c: nat)
    requires c < |s| && Distinct(s) && Bypassing(s, c)
    ensures Doubly(Removed(s, c))
  {
    hide Distinct, Removed, Past;
    var r := Removed(s, c);
    RemovedEnds(s, c);
    forall i {:trigger r[i]} | 0 <= i < |r|
      ensures r[i].next == Successor(r, i + 1) && r[i].prev == Successor(r, i - 1)
    {
      hide Successor;
      RemovedLinks(s, c, i);
    }
  }

  /** The pointers once t has been spliced in at position c, in terms of the list as it was. */
  ghost predicate Splicing<T>(nodes: seq<Node<T>>, c: nat, t: Node<T>)
    requires c <= |nodes|
    reads nodes, t
  {
    var p, n := Successor(nodes, c - 1), Successor(nodes, c);
    && t.next == n && t.prev == p
    && (forall k {:trigger nodes[k].next} :: 0 <= k < |nodes| ==>
         nodes[k].next == if nodes[k] == p then t else Successor(nodes, k + 1))
    && (forall k {:trigger nodes[k].prev} :: 0 <= k < |nodes| ==>
         nodes[k].prev == if nodes[k] == n then t else Successor(nodes, k - 1))
  }

  /** A spliced node is in the list. */
  lemma SplicedDoubly<T>(s: seq<Node<T>>, c: nat, t: Node<T>)
    requires c <= |s| && Distinct(s) && t !in s && Splicing(s, c, t)
    ensures Doubly(Inserted(s, c, t))
  {
    hide Distinct, Inserted, Before;
    var r := Inserted(s, c, t);
    InsertedEnds(s, c, t);
    forall i {:trigger r[i]} | 0 <= i < |r|
      ensures r[i].next == Successor(r, i + 1) && r[i].prev == Successor(r, i - 1)
    {
      hide Successor;
      if i != c {
        InsertedLinks(s, c, t, i);
      }
    }
  }

  /** First and last pointer of one list; `nodes` is what following the pointers visits. */
  class List<T> {
    var first: Node?<T>
    var last: Node?<T>
    ghost var nodes: seq<Node<T>>

    constructor ()
      ensures Valid() && nodes == []
    {
      first, last, nodes := null, null, [];
    }

    ghost function Members(): set<Node<T>>
      reads this`nodes
    {
      set t | t in nodes
    }

    ghost predicate Valid()
      reads this, (set t | t in nodes)`next, (set t | t in nodes)`prev
    {
      Doubly(nodes) && first == Successor(nodes, 0) && last == Successor(nodes, |nodes| - 1)
    }

    method First() returns (t: Node<T>)
      requires Valid() && |nodes| > 0
      ensures t == nodes[0]
    {
      t := first;
    }

    /** Unlink the first node. */
    method PopFirst() returns (t: Node<T>)
      requires Valid() && |nodes| > 0
      modifies this, Members()`next, Members()`prev
      ensures Valid() && t == old(nodes)[0] && nodes == old(nodes)[1..] && t !in nodes
    {
      t := first;
      first := t.next;
      if first != null {
        first.prev := null;
      } else {
        last := null;
      }
      nodes := nodes[1..];
    }

    /** Link a node in at the end. */
    method PushLast(t: Node<T>)
      requires Valid() && t !in nodes
      modifies this, Members()`next, t`next, t`prev
      ensures Valid() && nodes == old(nodes) + [t]
    {
      t.next := null;
      t.prev := last;
      if last == null {
        first := t;
      } else {
        last.next := t;
      }
      last := t;
      nodes := nodes + [t];
    }

    /** The pointer updates of an insertion between tp and its successor. */
    method Link(tp: Node?<T>, t: Node<T>)
      requires t !in nodes && (tp != null ==> tp in nodes)
      requires var tn := if tp != null then tp.next else first; tn != null ==> tn in nodes
      modifies `first, `last, Members()`next, Members()`prev, t`next, t`prev
      ensures var tn := old(if tp != null then tp.next else first);
        && t.next == tn && t.prev == tp
        && (forall k {:trigger nodes[k].next} :: 0 <= k < |nodes| ==>
             nodes[k].next == if nodes[k] == tp then t else old(nodes[k].next))
        && (forall k {:trigger nodes[k].prev} :: 0 <= k < |nodes| ==>
             nodes[k].prev == if nodes[k] == tn then t else old(nodes[k].prev))
        && first == (if tp == null then t else old(first)) && last == (if tn == null then t else old(last))
    {
      var tn := if tp != null then tp.next else first;
      t.next := tn;
      t.prev := tp;
      if tp == null {
        first := t;
      } else {
        tp.next := t;
      }
      if tn == null {
        last := t;
      } else {
        tn.prev := t;
      }
    }

    /** The pointers once the node at position c has been bypassed, in terms of the list as it was. */
    ghost predicate Bypassed(c: nat)
      requires c < |nodes|
      reads this, nodes
    {
      var p, n := Successor(nodes, c - 1), Successor(nodes, c + 1);
      && Bypassing(nodes, c)
      && first == (if p == null then n else nodes[0]) && last == (if n == null then p else nodes[|nodes| - 1])
    }

    /** Splice a node in after position c - 1, whose node is tp (null for the front). */
    method Splice(tp: Node?<T>, t: Node<T>, ghost c: nat)
      requires Valid() && t !in nodes && c <= |nodes| && tp == Successor(nodes, c - 1)
      modifies `first, `last, Members()`next, Members()`prev, t`next, t`prev
      ensures Splicing(nodes, c, t)
      ensures first == (if c == 0 then t else Successor(nodes, 0)) && last == (if c == |nodes| then t else Successor(nodes, |nodes| - 1))
    {
      hide Distinct;
      assert (if tp != null then tp.next else first) == Successor(nodes, c);
      Link(tp, t);
    }

    /** Link a node in after position c - 1. */
    method InsertAfter(tp: Node?<T>, t: Node<T>, ghost c: nat)
      requires Valid() && t !in nodes && c <= |nodes| && tp == Successor(nodes, c - 1)
      modifies this, Members()`next, Members()`prev, t`next, t`prev
      ensures Valid() && nodes == Inserted(old(nodes), c, t)
    {
      assert Distinct(nodes);
      hide Distinct, Inserted, Splicing, Doubly;
      InsertedEnds(nodes, c, t);
      Splice(tp, t, c);
      SplicedDoubly(nodes, c, t);
      nodes := Inserted(nodes, c, t);
    }

    ghost method Forget(c: nat)
      requires c < |nodes| && Distinct(nodes) && Bypassed(c)
      modifies `nodes
      ensures Valid() && nodes == Removed(old(nodes), c) && old(nodes)[c] !in nodes
    {
      hide Distinct, Removed, Doubly, Bypassing;
      RemovedEnds(nodes, c);
      BypassedDoubly(nodes, c);
      nodes := Removed(nodes, c);
    }

    /** Unlink the node at position c. */
    method Unlink(t: Node<T>, ghost c: nat)
      requires Valid() && c < |nodes| && nodes[c] == t
      modifies this, Members()`next, Members()`prev
      ensures Valid() && nodes == Removed(old(nodes), c) && t !in nodes
    {
      assert t.prev == Successor(nodes, c - 1) && t.next == Successor(nodes, c + 1);
      if t.prev != null {
        t.prev.next := t.next;
      } else {
        first := t.next;
      }
      if t.next != null {
        t.next.prev := t.prev;
      } else {
        last := t.prev;
      }
      Forget(c);
    }
  }

  /** First pointer of a list without a last pointer. */
  class HeadList<T> {
    var first: Node?<T>
    ghost var nodes: seq<Node<T>>

    constructor ()
      ensures Valid() && nodes == []
    {
      first, nodes := null, [];
    }

    ghost function Members(): set<Node<T>>
      reads this`nodes
    {
      set t | t in nodes
    }

    ghost predicate Valid()
      reads this, (set t | t in nodes)`next, (set t | t in nodes)`prev
    {
      Doubly(nodes) && first == Successor(nodes, 0)
    }

    /** Link a node in at the front. */
    method PushFirst(t: Node<T>)
      requires Valid() && t !in nodes
      modifies this, Members()`prev, t`next, t`prev
      ensures Valid() && nodes == [t] + old(nodes)
    {
      t.prev := null;
      if first == null {
        t.next := null;
      } else {
        t.next := first;
        first.prev := t;
      }
      first := t;
      nodes := [t] + nodes;
    }

    /** Unlink the node at position c. */
    method Unlink(t: Node<T>, ghost c: nat)
      requires Valid() && c < |nodes| && nodes[c] == t
      modifies this, Members()`next, Members()`prev
      ensures Valid() && nodes == Removed(old(nodes), c) && t !in nodes
    {
      assert t.prev == Successor(nodes, c - 1) && t.next == Successor(nodes, c + 1);
      if t.prev != null {
        t.prev.next := t.next;
      } else {
        first := t.next;
      }
      if t.next != null {
        t.next.prev := t.prev;
      }
      hide Removed, Doubly;
      RemovedEnds(nodes, c);
      BypassedDoubly(nodes, c);
      nodes := Removed(nodes, c);
    }
  }
}
