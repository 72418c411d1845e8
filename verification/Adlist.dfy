/**
 The doubly linked list of `adlist.c`. The nodes of a list form a sequence; `prev` and
 `next` are its two neighbour relations, and every operation is an operation on that sequence.
 */
module Adlist {
  import opened Common

  /** A `listNode`; the list functions never change its value. */
  class Node<T> {
    var prev: Node?<T>
    var next: Node?<T>
    const value: T

    constructor (value: T)
      ensures this.value == value && prev == null && next == null
    {
      this.value := value;
      prev, next := null, null;
    }
  }

  /** The node at a position, or null outside the sequence. */
  function Link<T>(nodes: seq<Node<T>>, i: int): Node?<T> {
    if 0 <= i < |nodes| then nodes[i] else null
  }

  predicate Distinct<T>(nodes: seq<Node<T>>) {
    forall i, j | 0 <= i < j < |nodes| :: nodes[i] != nodes[j]
  }

  /** `prev` and `next` lead to the neighbours in the sequence. */
  predicate LinkedAt<T>(nodes: seq<Node<T>>, i: nat)
    requires i < |nodes|
    reads nodes[i]
  {
    nodes[i].prev == Link(nodes, i - 1) && nodes[i].next == Link(nodes, i + 1)
  }

  predicate Linked<T>(nodes: seq<Node<T>>)
    reads nodes
  {
    forall i: nat | i < |nodes| :: LinkedAt(nodes, i)
  }

  function Values<T>(nodes: seq<Node<T>>): (r: seq<T>)
    ensures |r| == |nodes| && forall i | 0 <= i < |r| :: r[i] == nodes[i].value
  {
    seq(|nodes|, i requires 0 <= i < |nodes| => nodes[i].value)
  }

  class LinkedList<T> {
    var head: Node?<T>
    var tail: Node?<T>
    var len: nat
    ghost var nodes: seq<Node<T>>

    ghost predicate Valid()
      reads this, nodes
    {
      && len == |nodes| && Distinct(nodes) && Linked(nodes)
      && head == Link(nodes, 0) && tail == Link(nodes, len - 1)
    }

    /** `listCreate`. */
    constructor ()
      ensures Valid() && nodes == []
    {
      head, tail, len, nodes := null, null, 0, [];
    }

    /** `listAddNodeHead`. */
    method AddNodeHead(value: T)
      requires Valid()
      modifies this, nodes
      ensures Valid() && |nodes| == old(|nodes|) + 1 && fresh(nodes[0]) && nodes[0].value == value
      ensures nodes == [nodes[0]] + old(nodes)
    {
      ghost var nodes0 := nodes;
      var node := new Node<T>(value);
      if len == 0 {
        head, tail := node, node;
      } else {
        assert LinkedAt(nodes0, 0);
        node.next := head;
        head.prev := node;
        head := node;
      }
      len := len + 1;
      nodes := [node] + nodes;
      forall i: nat | i < |nodes|
        ensures LinkedAt(nodes, i)
      {
        if i > 0 {
          assert nodes[i] == nodes0[i - 1];
          assert old(LinkedAt(nodes0, i - 1));
        }
      }
    }

    /** `listAddNodeTail`. */
    method AddNodeTail(value: T)
      requires Valid()
      modifies this, nodes
      ensures Valid() && |nodes| == old(|nodes|) + 1 && fresh(nodes[|nodes| - 1]) && nodes[|nodes| - 1].value == value
      ensures nodes == old(nodes) + [nodes[|nodes| - 1]]
    {
      ghost var nodes0 := nodes;
      var node := new Node<T>(value);
      if len == 0 {
        head, tail := node, node;
      } else {
        assert LinkedAt(nodes0, len - 1);
        node.prev := tail;
        tail.next := node;
        tail := node;
      }
      len := len + 1;
      nodes := nodes + [node];
      forall i: nat | i < |nodes|
        ensures LinkedAt(nodes, i)
      {
        if i < |nodes0| {
          assert nodes[i] == nodes0[i];
          assert old(LinkedAt(nodes0, i));
        }
      }
    }

    /** `listInsertNode` after the node at position `i`. */
    method InsertAfter(node: Node<T>, ghost i: nat, value: T)
      requires Valid() && i < |nodes| && nodes[i] == node
      modifies this, nodes
      ensures Valid() && |nodes| == old(|nodes|) + 1 && fresh(nodes[i + 1]) && nodes[i + 1].value == value
      ensures nodes == old(nodes)[..i + 1] + [nodes[i + 1]] + old(nodes)[i + 1..]
    {
      ghost var nodes0 := nodes;
      assert LinkedAt(nodes0, i);
      var added := new Node<T>(value);
      added.prev := node;
      added.next := node.next;
      if tail == node {
        tail := added;
      }
      added.prev.next := added;
      if added.next != null {
        added.next.prev := added;
      }
      len := len + 1;
      nodes := nodes[..i + 1] + [added] + nodes[i + 1..];
      forall j: nat | j < |nodes|
        ensures LinkedAt(nodes, j)
      {
        if j <= i {
          assert nodes[j] == nodes0[j];
          assert old(LinkedAt(nodes0, j));
        } else if j > i + 1 {
          assert nodes[j] == nodes0[j - 1];
          assert old(LinkedAt(nodes0, j - 1));
        }
      }
    }

    /** `listInsertNode` before the node at position `i`. */
    method InsertBefore(node: Node<T>, ghost i: nat, value: T)
      requires Valid() && i < |nodes| && nodes[i] == node
      modifies this, nodes
      ensures Valid() && |nodes| == old(|nodes|) + 1 && fresh(nodes[i]) && nodes[i].value == value
      ensures nodes == old(nodes)[..i] + [nodes[i]] + old(nodes)[i..]
    {
      ghost var nodes0 := nodes;
      assert LinkedAt(nodes0, i);
      var added := new Node<T>(value);
      added.next := node;
      added.prev := node.prev;
      if head == node {
        head := added;
      }
      if added.prev != null {
        added.prev.next := added;
      }
      added.next.prev := added;
      len := len + 1;
      nodes := nodes[..i] + [added] + nodes[i..];
      forall j: nat | j < |nodes|
        ensures LinkedAt(nodes, j)
      {
        if j < i {
          assert nodes[j] == nodes0[j];
          assert old(LinkedAt(nodes0, j));
        } else if j > i {
          assert nodes[j] == nodes0[j - 1];
          assert old(LinkedAt(nodes0, j - 1));
        }
      }
    }

    /** `listInsertNode`. */
    method InsertNode(node: Node<T>, ghost i: nat, value: T, after: bool)
      requires Valid() && i < |nodes| && nodes[i] == node
      modifies this, nodes
      ensures Valid() && |nodes| == old(|nodes|) + 1
      ensures var k := if after then i + 1 else i;
              fresh(nodes[k]) && nodes[k].value == value && nodes == old(nodes)[..k] + [nodes[k]] + old(nodes)[k..]
    {
      if after {
        InsertAfter(node, i, value);
      } else {
        InsertBefore(node, i, value);
      }
    }

    /** `listDelNode`. */
    method DelNode(node: Node<T>, ghost i: nat)
      requires Valid() && i < |nodes| && nodes[i] == node
      modifies this, nodes
      ensures Valid() && nodes == old(nodes)[..i] + old(nodes)[i + 1..]
      ensures node.prev == old(node.prev) && node.next == old(node.next)
    {
      ghost var nodes0 := nodes;
      assert LinkedAt(nodes0, i);
      if node.prev != null {
        node.prev.next := node.next;
      } else {
        head := node.next;
      }
      if node.next != null {
        node.next.prev := node.prev;
      } else {
        tail := node.prev;
      }
      len := len - 1;
      nodes := nodes[..i] + nodes[i + 1..];
      forall j: nat | j < |nodes|
        ensures LinkedAt(nodes, j)
      {
        if j < i {
          assert nodes[j] == nodes0[j];
          assert old(LinkedAt(nodes0, j));
        } else {
          assert nodes[j] == nodes0[j + 1];
          assert old(LinkedAt(nodes0, j + 1));
        }
      }
    }

    /** `listIndex`: negative positions count from the tail. */
    method Index(index: int) returns (n: Node?<T>)
      requires Valid()
      ensures n == Link(nodes, if index < 0 then len + index else index)
    {
      if index < 0 {
        var k := -index - 1;
        n := tail;
        while k > 0 && n != null
          invariant k >= 0 && n == Link(nodes, len + index + k)
          decreases k
        {
          assert LinkedAt(nodes, len + index + k);
          n := n.prev;
          k := k - 1;
        }
      } else {
        var k := index;
        n := head;
        while k > 0 && n != null
          invariant k >= 0 && n == Link(nodes, index - k)
          decreases k
        {
          assert LinkedAt(nodes, index - k);
          n := n.next;
          k := k - 1;
        }
      }
    }

    /** `listRotate`: the tail becomes the head. */
    method Rotate()
      requires Valid()
      modifies this, nodes
      ensures Valid()
      ensures nodes == if old(|nodes|) <= 1 then old(nodes) else old(nodes[|nodes| - 1..] + nodes[..|nodes| - 1])
    {
      if len <= 1 {
        return;
      }
      ghost var nodes0, last := nodes, |nodes| - 1;
      assert LinkedAt(nodes0, last) && LinkedAt(nodes0, last - 1) && LinkedAt(nodes0, 0);
      var node := tail;
      tail := node.prev;
      tail.next := null;
      head.prev := node;
      node.prev := null;
      node.next := head;
      head := node;
      nodes := [node] + nodes[..last];
      forall j: nat | j < |nodes|
        ensures LinkedAt(nodes, j)
      {
        if j > 0 {
          assert nodes[j] == nodes0[j - 1];
          assert old(LinkedAt(nodes0, j - 1));
        }
      }
    }
  }

  // --- Iteration ---

  class ListIter<T> {
    var next: Node?<T>
    var fromHead: bool

    /** `listGetIterator`. */
    constructor (list: LinkedList<T>, fromHead: bool)
      ensures this.fromHead == fromHead && next == if fromHead then list.head else list.tail
    {
      this.fromHead := fromHead;
      next := if fromHead then list.head else list.tail;
    }

    /** `listNext`, at position `k` of the list. */
    method Next(ghost nodes: seq<Node<T>>, ghost k: int) returns (current: Node?<T>)
      requires Linked(nodes) && next == Link(nodes, k)
      modifies this
      ensures current == Link(nodes, k) && fromHead == old(fromHead)
      ensures next == if current == null then null else Link(nodes, if fromHead then k + 1 else k - 1)
    {
      current := next;
      if current != null {
        assert LinkedAt(nodes, k);
        if fromHead {
          next := current.next;
        } else {
          next := current.prev;
        }
      }
    }
  }

  /** The nodes at positions from `lo` to `hi` that are not to be deleted. */
  function Kept<T>(nodes: seq<Node<T>>, lo: nat, hi: nat, doomed: nat -> bool): seq<Node<T>>
    requires lo <= hi <= |nodes|
    decreases hi
  {
    if lo == hi then []
    else Kept(nodes, lo, hi - 1, doomed) + if doomed(hi - 1) then [] else [nodes[hi - 1]]
  }

  lemma {:induction false} KeptFirst<T>(nodes: seq<Node<T>>, lo: nat, hi: nat, doomed: nat -> bool)
    requires lo < hi <= |nodes|
    ensures Kept(nodes, lo, hi, doomed)
         == (if doomed(lo) then [] else [nodes[lo]]) + Kept(nodes, lo + 1, hi, doomed)
    decreases hi
  {
    if lo + 1 < hi {
      KeptFirst(nodes, lo, hi - 1, doomed);
    }
  }

  function Positions(lo: nat, hi: nat, doomed: nat -> bool): seq<nat>
    requires lo <= hi
    decreases hi
  {
    if lo == hi then [] else Positions(lo, hi - 1, doomed) + if doomed(hi - 1) then [] else [hi - 1]
  }

  lemma {:induction false} PositionsAre(lo: nat, hi: nat, doomed: nat -> bool)
    requires lo <= hi
    ensures forall i: nat :: i in Positions(lo, hi, doomed) <==> lo <= i < hi && !doomed(i)
    decreases hi
  {
    if lo < hi {
      PositionsAre(lo, hi - 1, doomed);
    }
  }

  predicate Increasing(at: seq<nat>) {
    forall j, k | 0 <= j < k < |at| :: at[j] < at[k]
  }

  lemma {:induction false} PositionsIncrease(lo: nat, hi: nat, doomed: nat -> bool)
    requires lo <= hi
    ensures Increasing(Positions(lo, hi, doomed))
    decreases hi
  {
    if lo < hi {
      PositionsIncrease(lo, hi - 1, doomed);
      PositionsAre(lo, hi - 1, doomed);
      var at := Positions(lo, hi - 1, doomed);
      forall j | 0 <= j < |at|
        ensures at[j] < hi - 1
      {
        assert at[j] in at;
      }
      assert Increasing(at + [hi - 1]);
      assert at + [] == at;
    }
  }

  lemma {:induction false} KeptIs<T>(nodes: seq<Node<T>>, lo: nat, hi: nat, doomed: nat -> bool, k: nat)
    requires lo <= hi <= |nodes|
    ensures |Positions(lo, hi, doomed)| == |Kept(nodes, lo, hi, doomed)|
    ensures k < |Kept(nodes, lo, hi, doomed)| ==>
              Positions(lo, hi, doomed)[k] < hi && Kept(nodes, lo, hi, doomed)[k] == nodes[Positions(lo, hi, doomed)[k]]
    decreases hi
  {
    if lo < hi {
      KeptIs(nodes, lo, hi - 1, doomed, k);
    }
  }

  /** What is kept are the nodes at the other positions, in order: `at` says where they were. */
  lemma KeptAt<T>(nodes: seq<Node<T>>, lo: nat, hi: nat, doomed: nat -> bool) returns (at: seq<nat>)
    requires lo <= hi <= |nodes|
    ensures |at| == |Kept(nodes, lo, hi, doomed)|
    ensures forall k | 0 <= k < |at| :: at[k] < hi && Kept(nodes, lo, hi, doomed)[k] == nodes[at[k]]
    ensures Increasing(at)
    ensures forall i: nat :: i in at <==> lo <= i < hi && !doomed(i)
  {
    hide Positions, Kept;
    at := Positions(lo, hi, doomed);
    KeptIs(nodes, lo, hi, doomed, 0);
    PositionsAre(lo, hi, doomed);
    PositionsIncrease(lo, hi, doomed);
    forall k | 0 <= k < |at|
      ensures at[k] < hi && Kept(nodes, lo, hi, doomed)[k] == nodes[at[k]]
    {
      KeptIs(nodes, lo, hi, doomed, k);
    }
  }

  predicate AllIn<T>(a: seq<Node<T>>, b: seq<Node<T>>) {
    forall i | 0 <= i < |a| :: a[i] in b
  }

  /** The body of a loop that iterates: the current node is perhaps deleted, and the next one fetched. */
  method SweepStep<T>(
    list: LinkedList<T>, iter: ListIter<T>, node: Node<T>, delete: bool,
    ghost left: seq<Node<T>>, ghost right: seq<Node<T>>)
    returns (following: Node?<T>)
    requires list.Valid() && list.nodes == left + [node] + right
    requires iter.next == if iter.fromHead then Link(right, 0) else Link(left, |left| - 1)
    modifies list, list.nodes, iter
    ensures list.Valid() && list.nodes == left + (if delete then [] else [node]) + right
    ensures iter.fromHead == old(iter.fromHead) && following == old(iter.next)
    ensures following != null ==> iter.next == if iter.fromHead then Link(right, 1) else Link(left, |left| - 2)
  {
    hide Linked, Distinct;
    ghost var k := if iter.fromHead then |left| + 1 else |left| - 1;
    if delete {
      list.DelNode(node, |left|);
      k := if iter.fromHead then |left| else |left| - 1;
    }
    following := iter.Next(list.nodes, k);
  }

  method SweepForward<T>(list: LinkedList<T>, doomed: nat -> bool) returns (visited: seq<Node<T>>)
    requires list.Valid()
    modifies list, list.nodes
    ensures visited == old(list.nodes)
    ensures list.Valid() && list.nodes == Kept(old(list.nodes), 0, old(|list.nodes|), doomed)
  {
    hide Kept, Linked, Distinct, AllIn, Link;
    ghost var nodes0 := list.nodes;
    ghost var kept: seq<Node<T>>, rest := [], nodes0;
    var k := 0;
    KeptNone(nodes0, 0, doomed);
    var iter := new ListIter(list, true);
    visited := [];
    var node := iter.Next(list.nodes, 0);
    while node != null
      invariant list.Valid() && list.nodes == kept + rest && visited + rest == nodes0 && k == |visited| <= |nodes0|
      invariant kept == Kept(nodes0, 0, k, doomed) && AllIn(kept, nodes0) && AllIn(rest, nodes0)
      invariant iter.fromHead && node == Link(rest, 0) && (node != null ==> iter.next == Link(rest, 1))
      decreases |rest|
    {
      var current: Node<T> := node;
      var delete := doomed(k);
      ForwardStep(nodes0, visited, kept, rest, current, doomed);
      node := SweepStep(list, iter, current, delete, kept, rest[1..]);
      kept, rest := kept + (if delete then [] else [current]), rest[1..];
      visited, k := visited + [current], k + 1;
    }
    NothingLeft(rest);
  }

  lemma NothingLeft<T>(rest: seq<Node<T>>)
    requires Link(rest, 0) == null
    ensures rest == []
  {
  }

  lemma KeptNone<T>(nodes: seq<Node<T>>, i: nat, doomed: nat -> bool)
    requires i <= |nodes|
    ensures Kept(nodes, i, i, doomed) == [] && AllIn([], nodes) && AllIn(nodes, nodes)
  {
  }

  lemma ForwardStep<T>(
    nodes: seq<Node<T>>, visited: seq<Node<T>>, kept: seq<Node<T>>, rest: seq<Node<T>>, node: Node<T>,
    doomed: nat -> bool)
    requires Link(rest, 0) == node && visited + rest == nodes
    requires kept == Kept(nodes, 0, |visited|, doomed) && AllIn(kept, nodes) && AllIn(rest, nodes)
    ensures |rest| > 0 && kept + rest == kept + [node] + rest[1..] && visited + [node] + rest[1..] == nodes
    ensures forall i | 0 <= i < |kept + rest| :: (kept + rest)[i] in nodes
    ensures Link(rest, 1) == Link(rest[1..], 0)
    ensures var kept' := kept + if doomed(|visited|) then [] else [node];
            kept' == Kept(nodes, 0, |visited| + 1, doomed) && AllIn(kept', nodes) && AllIn(rest[1..], nodes)
  {
    assert rest == [node] + rest[1..];
    assert nodes[|visited|] == node;
  }

  method SweepBackward<T>(list: LinkedList<T>, doomed: nat -> bool) returns (visited: seq<Node<T>>)
    requires list.Valid()
    modifies list, list.nodes
    ensures Backwards(visited, old(list.nodes))
    ensures list.Valid() && list.nodes == Kept(old(list.nodes), 0, old(|list.nodes|), doomed)
  {
    hide Kept, Linked, Distinct, AllIn, Backwards, Link;
    ghost var nodes0 := list.nodes;
    ghost var rest, kept: seq<Node<T>> := nodes0, [];
    var k := list.len;
    KeptNone(nodes0, k, doomed);
    var iter := new ListIter(list, false);
    visited := [];
    BackwardsNone(visited, nodes0);
    var node := iter.Next(list.nodes, k - 1);
    while node != null
      invariant list.Valid() && list.nodes == rest + kept && k == |rest| <= |nodes0| && rest == nodes0[..k]
      invariant Backwards(visited, nodes0[k..])
      invariant kept == Kept(nodes0, k, |nodes0|, doomed) && AllIn(kept, nodes0) && AllIn(rest, nodes0)
      invariant !iter.fromHead && node == Link(rest, k - 1) && (node != null ==> iter.next == Link(rest, k - 2))
      decreases k
    {
      var current: Node<T> := node;
      BackwardStep(nodes0, rest, kept, current, doomed);
      k := k - 1;
      var delete := doomed(k);
      node := SweepStep(list, iter, current, delete, rest[..k], kept);
      kept, rest := (if delete then [] else [current]) + kept, rest[..k];
      BackwardsNext(visited, nodes0, k);
      visited := visited + [current];
    }
    NothingBefore(rest);
    assert nodes0[0..] == nodes0 && rest + kept == kept;
  }

  lemma NothingBefore<T>(rest: seq<Node<T>>)
    requires Link(rest, |rest| - 1) == null
    ensures rest == []
  {
  }

  /** The same nodes from the other end. */
  ghost predicate Backwards<T>(visited: seq<Node<T>>, nodes: seq<Node<T>>) {
    |visited| == |nodes| && forall i | 0 <= i < |nodes| :: visited[i] == nodes[|nodes| - 1 - i]
  }

  lemma BackwardsNone<T>(visited: seq<Node<T>>, nodes: seq<Node<T>>)
    requires visited == []
    ensures Backwards(visited, nodes[|nodes|..])
  {
  }

  lemma BackwardsNext<T>(visited: seq<Node<T>>, nodes: seq<Node<T>>, k: nat)
    requires k < |nodes| && Backwards(visited, nodes[k + 1..])
    ensures Backwards(visited + [nodes[k]], nodes[k..])
  {
  }

  lemma BackwardStep<T>(
    nodes: seq<Node<T>>, rest: seq<Node<T>>, kept: seq<Node<T>>, node: Node<T>, doomed: nat -> bool)
    requires Link(rest, |rest| - 1) == node && |rest| <= |nodes| && rest == nodes[..|rest|]
    requires kept == Kept(nodes, |rest|, |nodes|, doomed) && AllIn(kept, nodes) && AllIn(rest, nodes)
    ensures |rest| > 0 && rest + kept == rest[..|rest| - 1] + [node] + kept
    ensures forall i | 0 <= i < |rest + kept| :: (rest + kept)[i] in nodes
    ensures var k := |rest| - 1;
            && Link(rest, k - 1) == Link(rest[..k], k - 1)
            && nodes[k] == node
            && AllIn(rest[..k], nodes) && rest[..k] == nodes[..k]
            && var kept' := (if doomed(k) then [] else [node]) + kept;
               kept' == Kept(nodes, k, |nodes|, doomed) && AllIn(kept', nodes)
  {
    var k := |rest| - 1;
    assert rest == rest[..k] + [node];
    assert nodes[k] == rest[k] == node;
    KeptFirst(nodes, k, |nodes|, doomed);
  }

  /**
   The loop that deletes nodes while it iterates, which `listNext` allows for the node it
   has just returned: in either direction every node is visited once, in order, and
   exactly the nodes at the doomed positions go. `at` says where the nodes left were before.
   */
  method Sweep<T>(list: LinkedList<T>, fromHead: bool, doomed: nat -> bool)
    returns (visited: seq<Node<T>>, ghost at: seq<nat>)
    requires list.Valid()
    modifies list, list.nodes
    ensures if fromHead then visited == old(list.nodes) else Backwards(visited, old(list.nodes))
    ensures list.Valid() && |at| == |list.nodes| && Increasing(at)
    ensures forall i: nat :: i in at <==> i < old(|list.nodes|) && !doomed(i)
    ensures forall k | 0 <= k < |at| :: at[k] < old(|list.nodes|) && list.nodes[k] == old(list.nodes)[at[k]]
  {
    hide Kept;
    at := KeptAt(list.nodes, 0, |list.nodes|, doomed);
    if fromHead {
      visited := SweepForward(list, doomed);
    } else {
      visited := SweepBackward(list, doomed);
    }
  }

  /** The copies of the values, if `dup` succeeds on all of them. */
  ghost predicate CopiedBy<T>(dup: T -> Option<T>, values: seq<T>, copies: seq<T>) {
    |copies| == |values| && forall i | 0 <= i < |values| :: dup(values[i]) == Some(copies[i])
  }

  /** `listDup`, which fails if the list's own `dup` does; without one, `dup` returns its argument. */
  method Dup<T>(list: LinkedList<T>, dup: T -> Option<T>) returns (copy: LinkedList?<T>)
    requires list.Valid()
    ensures copy == null <==> exists i :: 0 <= i < |list.nodes| && dup(list.nodes[i].value).None?
    ensures copy != null ==>
              && copy.Valid() && fresh(copy) && (forall i | 0 <= i < |copy.nodes| :: fresh(copy.nodes[i]))
              && CopiedBy(dup, Values(list.nodes), Values(copy.nodes))
  {
    hide Distinct, CopiedBy, Values;
    var result := new LinkedList<T>();
    CopiedNone(dup, list.nodes);
    var iter := new ListIter(list, true);
    ghost var nodes, k := list.nodes, 0;
    var node := iter.Next(nodes, 0);
    while node != null
      invariant Linked(nodes) && 0 <= k <= |nodes| && node == Link(nodes, k) && iter.fromHead
      invariant node != null ==> iter.next == Link(nodes, k + 1)
      invariant result.Valid() && fresh(result) && fresh(iter)
      invariant forall i | 0 <= i < |result.nodes| :: fresh(result.nodes[i])
      invariant CopiedBy(dup, Values(nodes)[..k], Values(result.nodes))
      decreases |nodes| - k
    {
      hide Linked;
      var value := dup(node.value);
      if value.None? {
        assert dup(nodes[k].value).None?;
        return null;
      }
      ghost var before := result.nodes;
      result.AddNodeTail(value.value);
      CopiedMore(dup, nodes, k, before, result.nodes);
      k := k + 1;
      node := iter.Next(nodes, k);
    }
    CopiedAll(dup, nodes, result.nodes);
    copy := result;
  }

  lemma CopiedNone<T>(dup: T -> Option<T>, nodes: seq<Node<T>>)
    ensures CopiedBy(dup, Values(nodes)[..0], Values<T>([]))
  {
  }

  lemma CopiedMore<T>(dup: T -> Option<T>, nodes: seq<Node<T>>, k: nat, copies: seq<Node<T>>, copies': seq<Node<T>>)
    requires k < |nodes| && CopiedBy(dup, Values(nodes)[..k], Values(copies))
    requires |copies'| == |copies| + 1 && copies' == copies + [copies'[|copies|]]
    requires dup(nodes[k].value) == Some(copies'[|copies|].value)
    ensures CopiedBy(dup, Values(nodes)[..k + 1], Values(copies'))
  {
  }

  lemma CopiedAll<T>(dup: T -> Option<T>, nodes: seq<Node<T>>, copies: seq<Node<T>>)
    requires CopiedBy(dup, Values(nodes)[..|nodes|], Values(copies))
    ensures CopiedBy(dup, Values(nodes), Values(copies))
    ensures forall i | 0 <= i < |nodes| :: dup(nodes[i].value).Some?
  {
    assert Values(nodes)[..|nodes|] == Values(nodes);
  }
}
