/** The doubly linked list of adlist.c, over nodes that point at each other. */
module Adlist {
  class Node<T> {
    var prev: Node?<T>
    var next: Node?<T>
    const value: T

    constructor (value: T)
      ensures this.value == value && prev == null && next == null
    {
      this.value, prev, next := value, null, null;
    }
  }

  predicate NoDup<T>(nodes: seq<Node<T>>) {
    forall i, j :: 0 <= i < j < |nodes| ==> nodes[i] != nodes[j]
  }

  /** The node at i of a sequence, null beyond its ends. */
  function NodeAt<T>(nodes: seq<Node<T>>, i: int): Node?<T> {
    if 0 <= i < |nodes| then nodes[i] else null
  }

  /** The links of the nodes as they are now. */
  ghost function Prevs<T>(nodes: seq<Node<T>>): (p: seq<Node?<T>>)
    reads nodes
    ensures |p| == |nodes|
  {
    seq(|nodes|, i requires 0 <= i < |nodes| reads nodes => nodes[i].prev)
  }

  ghost function Nexts<T>(nodes: seq<Node<T>>): (q: seq<Node?<T>>)
    reads nodes
    ensures |q| == |nodes|
  {
    seq(|nodes|, i requires 0 <= i < |nodes| reads nodes => nodes[i].next)
  }

  /** Links p and q are those of the nodes in this order. */
  ghost predicate InOrder<T>(nodes: seq<Node<T>>, p: seq<Node?<T>>, q: seq<Node?<T>>) {
    && |p| == |q| == |nodes| && NoDup(nodes)
    && (forall i :: 0 <= i < |p| ==> p[i] == NodeAt(nodes, i - 1))
    && (forall i :: 0 <= i < |q| ==> q[i] == NodeAt(nodes, i + 1))
  }

  ghost predicate Linked<T>(nodes: seq<Node<T>>)
    reads nodes
  {
    InOrder(nodes, Prevs(nodes), Nexts(nodes))
  }

  lemma {:induction false} Neighbours<T>(nodes: seq<Node<T>>, i: nat)
    requires Linked(nodes) && i < |nodes|
    ensures nodes[i].prev == NodeAt(nodes, i - 1) && nodes[i].next == NodeAt(nodes, i + 1)
  {
    assert Prevs(nodes)[i] == nodes[i].prev && Nexts(nodes)[i] == nodes[i].next;
  }

  lemma {:induction false} FromLinked<T>(nodes: seq<Node<T>>)
    requires Linked(nodes)
    ensures NoDup(nodes) && InOrder(nodes, Prevs(nodes), Nexts(nodes))
  {
  }

  lemma {:induction false} ToLinked<T>(nodes: seq<Node<T>>, p: seq<Node?<T>>, q: seq<Node?<T>>)
    requires InOrder(nodes, p, q) && p == Prevs(nodes) && q == Nexts(nodes)
    ensures Linked(nodes)
  {
  }

  /** The node at k is at no other place. */
  lemma {:induction false} Only<T>(nodes: seq<Node<T>>, k: int)
    requires Linked(nodes)
    ensures 0 <= k < |nodes| ==> forall i :: 0 <= i < |nodes| && i != k ==> nodes[i] != nodes[k]
  {
  }

  function With<A>(s: seq<A>, i: int, x: A): (r: seq<A>)
    ensures |r| == |s|
  {
    if 0 <= i < |s| then s[i := x] else s
  }

  lemma {:induction false} WholeValues<T>(nodes: seq<Node<T>>)
    ensures Values(nodes)[..|nodes|] == Values(nodes) && Values(nodes)[|nodes|..] == []
  {
  }

  lemma {:induction false} WithNone<A>(s: seq<A>, i: int, x: A)
    requires i >= |s|
    ensures With(s, i, x) == s
  {
  }

  lemma {:induction false} WithIs<A>(t: seq<A>, s: seq<A>, i: int, x: A)
    requires |t| == |s| && forall j :: 0 <= j < |s| ==> t[j] == if j == i then x else s[j]
    ensures With(s, i, x) == t
  {
  }

  lemma {:induction false} InsertedNodeAt<T>(nodes: seq<Node<T>>, at: nat, node: Node<T>, i: int)
    requires at <= |nodes| && -1 <= i <= |nodes| + 1
    ensures NodeAt(Inserted(nodes, at, node), i) ==
            if i < at then NodeAt(nodes, i) else if i == at then node else NodeAt(nodes, i - 1)
  {
  }

  lemma {:induction false} InsertedLink<A>(s: seq<A>, at: nat, k: int, x: A, y: A, i: nat)
    requires at <= |s| && i <= |s|
    ensures (With(s, k, x)[..at] + [y] + With(s, k, x)[at..])[i] ==
            if i == at then y else var j := if i < at then i else i - 1; if j == k then x else s[j]
  {
  }

  lemma {:induction false} InsertedInOrder<T>(nodes: seq<Node<T>>, p: seq<Node?<T>>, q: seq<Node?<T>>, at: nat,
                                              node: Node<T>)
    requires InOrder(nodes, p, q) && at <= |nodes| && node !in nodes
    ensures var p', q' := With(p, at, node), With(q, at - 1, node);
            InOrder(Inserted(nodes, at, node), p'[..at] + [NodeAt(nodes, at - 1)] + p'[at..],
                    q'[..at] + [NodeAt(nodes, at)] + q'[at..])
  {
    hide NoDup, Inserted, NodeAt, With;
    InsertedAt(nodes, at, node);
    var r := Inserted(nodes, at, node);
    var p', q' := With(p, at, node), With(q, at - 1, node);
    var rp, rq := p'[..at] + [NodeAt(nodes, at - 1)] + p'[at..], q'[..at] + [NodeAt(nodes, at)] + q'[at..];
    forall i: nat | i < |r| ensures rp[i] == NodeAt(r, i - 1) {
      InsertedNodeAt(nodes, at, node, i - 1);
      InsertedLink<Node?<T>>(p, at, at, node, NodeAt(nodes, at - 1), i);
    }
    forall i: nat | i < |r| ensures rq[i] == NodeAt(r, i + 1) {
      InsertedNodeAt(nodes, at, node, i + 1);
      InsertedLink<Node?<T>>(q, at, at - 1, node, NodeAt(nodes, at), i);
    }
  }

  lemma {:induction false} RemovedInOrder<T>(nodes: seq<Node<T>>, p: seq<Node?<T>>, q: seq<Node?<T>>, at: nat)
    requires InOrder(nodes, p, q) && at < |nodes|
    ensures var p', q' := With(p, at + 1, NodeAt(nodes, at - 1)), With(q, at - 1, NodeAt(nodes, at + 1));
            InOrder(Removed(nodes, at), p'[..at] + p'[at + 1..], q'[..at] + q'[at + 1..])
  {
    hide NoDup;
    RemovedAt(nodes, at);
    var r := Removed(nodes, at);
    hide Removed;
    var p', q' := With(p, at + 1, NodeAt(nodes, at - 1)), With(q, at - 1, NodeAt(nodes, at + 1));
    var rp, rq := p'[..at] + p'[at + 1..], q'[..at] + q'[at + 1..];
    forall i | 0 <= i < |r| ensures rp[i] == NodeAt(r, i - 1) {
      if i < at { assert rp[i] == p'[i]; } else { assert rp[i] == p'[i + 1]; }
    }
    forall i | 0 <= i < |r| ensures rq[i] == NodeAt(r, i + 1) {
      if i < at { assert rq[i] == q'[i]; } else { assert rq[i] == q'[i + 1]; }
    }
  }

  function Rotated<A>(s: seq<A>): seq<A>
    requires s != []
  {
    [s[|s| - 1]] + s[..|s| - 1]
  }

  lemma {:induction false} LinksRotated<T>(nodes: seq<Node<T>>)
    requires nodes != []
    ensures Prevs(Rotated(nodes)) == Rotated(Prevs(nodes)) && Nexts(Rotated(nodes)) == Rotated(Nexts(nodes))
  {
  }

  lemma {:induction false} RotatedInOrder<T>(nodes: seq<Node<T>>, p: seq<Node?<T>>, q: seq<Node?<T>>)
    requires InOrder(nodes, p, q) && |nodes| >= 2
    ensures var n := |nodes|;
            InOrder(Rotated(nodes), Rotated(With(With(p, 0, nodes[n - 1]), n - 1, null)),
                    Rotated(With(With(q, n - 2, null), n - 1, nodes[0])))
    ensures var r := Rotated(nodes);
            |r| == |nodes| && r[0] == nodes[|nodes| - 1] && r[|nodes| - 1] == nodes[|nodes| - 2]
  {
    var r := Rotated(nodes);
    assert forall i :: 0 <= i < |r| ==> r[i] == if i == 0 then nodes[|nodes| - 1] else nodes[i - 1];
  }

  lemma {:induction false} LinksInserted<T>(nodes: seq<Node<T>>, at: nat, node: Node<T>)
    requires at <= |nodes|
    ensures Prevs(Inserted(nodes, at, node)) == Prevs(nodes)[..at] + [node.prev] + Prevs(nodes)[at..]
    ensures Nexts(Inserted(nodes, at, node)) == Nexts(nodes)[..at] + [node.next] + Nexts(nodes)[at..]
  {
  }

  lemma {:induction false} LinksRemoved<T>(nodes: seq<Node<T>>, at: nat)
    requires at < |nodes|
    ensures Prevs(Removed(nodes, at)) == Prevs(nodes)[..at] + Prevs(nodes)[at + 1..]
    ensures Nexts(Removed(nodes, at)) == Nexts(nodes)[..at] + Nexts(nodes)[at + 1..]
  {
  }

  function Values<T>(nodes: seq<Node<T>>): (vs: seq<T>)
    ensures |vs| == |nodes|
  {
    seq(|nodes|, i requires 0 <= i < |nodes| => nodes[i].value)
  }

  function Inserted<T>(nodes: seq<Node<T>>, at: nat, node: Node<T>): seq<Node<T>>
    requires at <= |nodes|
  {
    nodes[..at] + [node] + nodes[at..]
  }

  function Removed<A>(nodes: seq<A>, at: nat): seq<A>
    requires at < |nodes|
  {
    nodes[..at] + nodes[at + 1..]
  }

  lemma {:induction false} InsertedAt<T>(nodes: seq<Node<T>>, at: nat, node: Node<T>)
    requires at <= |nodes| && NoDup(nodes) && node !in nodes
    ensures var r := Inserted(nodes, at, node);
            && |r| == |nodes| + 1 && NoDup(r)
            && (forall i :: 0 <= i <= |nodes| ==>
                  r[i] == if i < at then nodes[i] else if i == at then node else nodes[i - 1])
  {
  }

  lemma {:induction false} InsertedEnds<T>(nodes: seq<Node<T>>, at: nat, node: Node<T>)
    requires at <= |nodes|
    ensures var r := Inserted(nodes, at, node);
            && NodeAt(r, 0) == (if at == 0 then node else NodeAt(nodes, 0))
            && NodeAt(r, |r| - 1) == (if at == |nodes| then node else NodeAt(nodes, |nodes| - 1))
            && Values(r) == Values(nodes)[..at] + [node.value] + Values(nodes)[at..]
  {
  }

  lemma {:induction false} RemovedAt<T>(nodes: seq<Node<T>>, at: nat)
    requires at < |nodes| && NoDup(nodes)
    ensures var r := Removed(nodes, at);
            && |r| == |nodes| - 1 && NoDup(r) && nodes[at] !in r
            && (forall i :: 0 <= i < |r| ==> r[i] == if i < at then nodes[i] else nodes[i + 1])
  {
  }

  lemma {:induction false} RemovedEnds<T>(nodes: seq<Node<T>>, at: nat)
    requires at < |nodes|
    ensures var r := Removed(nodes, at);
            && NodeAt(r, 0) == NodeAt(nodes, if at == 0 then 1 else 0)
            && NodeAt(r, |r| - 1) == NodeAt(nodes, if at == |nodes| - 1 then at - 1 else |nodes| - 1)
            && Values(r) == Values(nodes)[..at] + Values(nodes)[at + 1..]
  {
  }

  class List<T> {
    var head: Node?<T>
    var tail: Node?<T>
    var len: nat
    ghost var nodes: seq<Node<T>>

    ghost predicate Valid()
      reads this, nodes
    {
      len == |nodes| && head == NodeAt(nodes, 0) && tail == NodeAt(nodes, |nodes| - 1) && Linked(nodes)
    }

    constructor ()
      ensures Valid() && nodes == []
    {
      head, tail, len, nodes := null, null, 0, [];
    }

    method AddNodeHead(value: T)
      requires Valid()
      modifies this, nodes
      ensures Valid() && |nodes| == |old(nodes)| + 1 && fresh(nodes[0]) && nodes == Inserted(old(nodes), 0, nodes[0])
      ensures Values(nodes) == [value] + old(Values(nodes))
    {
      hide Values, Inserted, NoDup, InOrder, Linked;
      Only(nodes, 0);
      FromLinked(nodes);
      var node := new Node(value);
      if len == 0 {
        head, tail := node, node;
        node.prev, node.next := null, null;
      } else {
        node.prev := null;
        node.next := head;
        head.prev := node;
        head := node;
      }
      len := len + 1;
      assert Prevs(nodes) == With(old(Prevs(nodes)), 0, node);
      assert Nexts(nodes) == With(old(Nexts(nodes)), 0 - 1, node);
      InsertedAt(nodes, 0, node);
      InsertedEnds(nodes, 0, node);
      LinksInserted(nodes, 0, node);
      InsertedInOrder(nodes, old(Prevs(nodes)), old(Nexts(nodes)), 0, node);
      nodes := Inserted(nodes, 0, node);
      ToLinked(nodes, Prevs(nodes), Nexts(nodes));
    }

    method AddNodeTail(value: T)
      requires Valid()
      modifies this, nodes
      ensures Valid() && |nodes| == |old(nodes)| + 1 && fresh(nodes[|nodes| - 1])
      ensures nodes == Inserted(old(nodes), |old(nodes)|, nodes[|nodes| - 1]) && nodes[|nodes| - 1].value == value
      ensures Values(nodes) == old(Values(nodes)) + [value]
    {
      hide Values, Inserted, NoDup, InOrder, Linked, With;
      ghost var n := |nodes|;
      Only(nodes, n - 1);
      FromLinked(nodes);
      var node := new Node(value);
      if len == 0 {
        head, tail := node, node;
        node.prev, node.next := null, null;
      } else {
        node.prev := tail;
        node.next := null;
        tail.next := node;
        tail := node;
      }
      len := len + 1;
      WithNone(old(Prevs(nodes)), n, node);
      WithIs(Nexts(nodes), old(Nexts(nodes)), n - 1, node);
      InsertedAt(nodes, n, node);
      InsertedEnds(nodes, n, node);
      LinksInserted(nodes, n, node);
      InsertedInOrder(nodes, old(Prevs(nodes)), old(Nexts(nodes)), n, node);
      assert Prevs(nodes) == old(Prevs(nodes));
      WholeValues(nodes);
      nodes := Inserted(nodes, n, node);
      ToLinked(nodes, Prevs(nodes), Nexts(nodes));
    }

    /** listInsertNode before or after the node at i. */
    method InsertNode(oldNode: Node<T>, value: T, after: bool, ghost i: nat)
      requires Valid() && i < |nodes| && nodes[i] == oldNode
      modifies this, nodes
      ensures Valid()
      ensures var at := if after then i + 1 else i;
              && |nodes| == |old(nodes)| + 1 && fresh(nodes[at]) && nodes == Inserted(old(nodes), at, nodes[at])
              && Values(nodes) == old(Values(nodes))[..at] + [value] + old(Values(nodes))[at..]
    {
      hide Values, Inserted, NoDup, InOrder, Linked, With, Prevs, Nexts;
      FromLinked(nodes);
      ghost var p, q, at := Prevs(nodes), Nexts(nodes), if after then i + 1 else i;
      var node := new Node(value);
      if after { LinkAfter(oldNode, node, i); } else { LinkBefore(oldNode, node, i); }
      len := len + 1;
      Complete(node, at, p, q);
    }

    /** The order of the nodes, once the links are changed for a new one. */
    ghost method Complete(node: Node<T>, at: nat, p: seq<Node?<T>>, q: seq<Node?<T>>)
      requires NoDup(nodes) && InOrder(nodes, p, q) && at <= |nodes| && node !in nodes && len == |nodes| + 1
      requires node.prev == NodeAt(nodes, at - 1) && node.next == NodeAt(nodes, at)
      requires Prevs(nodes) == With(p, at, node) && Nexts(nodes) == With(q, at - 1, node)
      requires head == (if at == 0 then node else NodeAt(nodes, 0))
      requires tail == (if at == |nodes| then node else NodeAt(nodes, |nodes| - 1))
      modifies this`nodes
      ensures Valid() && nodes == Inserted(old(nodes), at, node) && |nodes| == |old(nodes)| + 1 && nodes[at] == node
      ensures Values(nodes) == Values(old(nodes))[..at] + [node.value] + Values(old(nodes))[at..]
    {
      hide Values, Inserted, NoDup, InOrder, Linked, With, Prevs, Nexts;
      InsertedAt(nodes, at, node);
      InsertedEnds(nodes, at, node);
      LinksInserted(nodes, at, node);
      InsertedInOrder(nodes, p, q, at, node);
      nodes := Inserted(nodes, at, node);
      ToLinked(nodes, Prevs(nodes), Nexts(nodes));
    }

    method LinkAfter(oldNode: Node<T>, node: Node<T>, ghost i: nat)
      requires Valid() && i < |nodes| && nodes[i] == oldNode && node !in nodes
      modifies this`tail, nodes, node
      ensures node.prev == NodeAt(nodes, i) && node.next == NodeAt(nodes, i + 1)
      ensures tail == if i + 1 == |nodes| then node else old(tail)
      ensures Prevs(nodes) == With(old(Prevs(nodes)), i + 1, node) && Nexts(nodes) == With(old(Nexts(nodes)), i, node)
    {
      hide InOrder, NoDup, Linked;
      Only(nodes, i);
      Only(nodes, i + 1);
      Only(nodes, |nodes| - 1);
      Neighbours(nodes, i);
      node.prev := oldNode;
      node.next := oldNode.next;
      if tail == oldNode { tail := node; }
      node.prev.next := node;
      if node.next != null { node.next.prev := node; }
    }

    method LinkBefore(oldNode: Node<T>, node: Node<T>, ghost i: nat)
      requires Valid() && i < |nodes| && nodes[i] == oldNode && node !in nodes
      modifies this`head, nodes, node
      ensures node.prev == NodeAt(nodes, i - 1) && node.next == NodeAt(nodes, i)
      ensures head == if i == 0 then node else old(head)
      ensures Prevs(nodes) == With(old(Prevs(nodes)), i, node) && Nexts(nodes) == With(old(Nexts(nodes)), i - 1, node)
    {
      hide InOrder, NoDup, Linked;
      Only(nodes, i);
      Only(nodes, i - 1);
      Only(nodes, 0);
      Neighbours(nodes, i);
      node.next := oldNode;
      node.prev := oldNode.prev;
      if head == oldNode { head := node; }
      if node.prev != null { node.prev.next := node; }
      node.next.prev := node;
    }

    /** listDelNode of the node at i. */
    method DelNode(node: Node<T>, ghost i: nat)
      requires Valid() && i < |nodes| && nodes[i] == node
      modifies this, nodes
      ensures Valid() && nodes == Removed(old(nodes), i)
      ensures Values(nodes) == old(Values(nodes))[..i] + old(Values(nodes))[i + 1..]
    {
      hide Values, Removed, NoDup, InOrder, Linked;
      FromLinked(nodes);
      Only(nodes, i - 1);
      Only(nodes, i + 1);
      Neighbours(nodes, i);
      if node.prev != null { node.prev.next := node.next; } else { head := node.next; }
      if node.next != null { node.next.prev := node.prev; } else { tail := node.prev; }
      len := len - 1;
      assert Prevs(nodes) == With(old(Prevs(nodes)), i + 1, NodeAt(nodes, i - 1));
      assert Nexts(nodes) == With(old(Nexts(nodes)), i - 1, NodeAt(nodes, i + 1));
      RemovedAt(nodes, i);
      RemovedEnds(nodes, i);
      LinksRemoved(nodes, i);
      RemovedInOrder(nodes, old(Prevs(nodes)), old(Nexts(nodes)), i);
      nodes := Removed(nodes, i);
      ToLinked(nodes, Prevs(nodes), Nexts(nodes));
    }

    /** listRotate: the last node becomes the first. */
    method Rotate()
      requires Valid()
      modifies this, nodes
      ensures Valid()
      ensures nodes == if |old(nodes)| <= 1 then old(nodes) else Rotated(old(nodes))
    {
      hide NoDup, InOrder, Linked, Rotated, With, Prevs, Nexts;
      if len <= 1 { return; }
      FromLinked(nodes);
      ghost var p, q := Prevs(nodes), Nexts(nodes);
      MoveTailToHead();
      LinksRotated(nodes);
      RotatedInOrder(nodes, p, q);
      nodes := Rotated(nodes);
      ToLinked(nodes, Prevs(nodes), Nexts(nodes));
    }

    /** The links are changed; the order of the nodes is not updated yet. */
    method MoveTailToHead()
      requires Valid() && len >= 2
      modifies this`head, this`tail, nodes
      ensures head == nodes[|nodes| - 1] && tail == nodes[|nodes| - 2]
      ensures Prevs(nodes) == With(With(old(Prevs(nodes)), 0, nodes[|nodes| - 1]), |nodes| - 1, null)
      ensures Nexts(nodes) == With(With(old(Nexts(nodes)), |nodes| - 2, null), |nodes| - 1, nodes[0])
    {
      hide InOrder, NoDup, Linked;
      ghost var n := |nodes|;
      Only(nodes, 0);
      Only(nodes, n - 1);
      Only(nodes, n - 2);
      Neighbours(nodes, n - 1);
      // detach the tail
      var last := tail;
      tail := last.prev;
      tail.next := null;
      // move it to the head
      head.prev := last;
      last.prev := null;
      last.next := head;
      head := last;
    }

    /** listIndex: negative numbers count from the tail. */
    method Index(index0: int) returns (n: Node?<T>)
      requires Valid()
      ensures n == if index0 < 0 then NodeAt(nodes, |nodes| + index0) else NodeAt(nodes, index0)
    {
      hide Linked;
      var index := index0;
      if index < 0 {
        index := -index - 1;
        n := tail;
        ghost var at := |nodes| - 1;
        while index > 0 && n != null
          invariant index >= 0 && n == NodeAt(nodes, at) && at - index == |nodes| + index0 && at < |nodes|
          decreases index
        {
          Neighbours(nodes, at);
          n := n.prev;
          index, at := index - 1, at - 1;
        }
      } else {
        n := head;
        ghost var at := 0;
        while index > 0 && n != null
          invariant index >= 0 && n == NodeAt(nodes, at) && at + index == index0 && at >= 0
          decreases index
        {
          Neighbours(nodes, at);
          n := n.next;
          index, at := index - 1, at + 1;
        }
      }
    }
  }

  // ----- iterating -----

  /** What an iterator will return, that stands at the node at i: from there on, or back from there. */
  function Pending<T>(nodes: seq<Node<T>>, forward: bool, i: int): seq<Node<T>>
    requires -1 <= i <= |nodes|
  {
    if forward then (if i < 0 then nodes else nodes[i..]) else Reversed(if i == |nodes| then nodes else nodes[..i + 1])
  }

  function Reversed<A>(s: seq<A>): (r: seq<A>)
    ensures |r| == |s| && forall k :: 0 <= k < |s| ==> r[k] == s[|s| - 1 - k]
  {
    seq(|s|, k requires 0 <= k < |s| => s[|s| - 1 - k])
  }

  class ListIter<T> {
    const forward: bool
    var next: Node?<T>

    /** The iterator of a list in a state with these nodes; todo is what it has still to return. */
    ghost predicate Ready(nodes: seq<Node<T>>, todo: seq<Node<T>>)
      reads this
    {
      exists i :: -1 <= i <= |nodes| && next == NodeAt(nodes, i) && todo == Pending(nodes, forward, i) && Ends(nodes, i)
    }

    /** It runs off the end that it moves to. */
    ghost predicate Ends(nodes: seq<Node<T>>, i: int) {
      if forward then i >= 0 else i < |nodes|
    }

    /** listGetIterator, listRewind and listRewindTail */
    constructor (list: List<T>, forward: bool)
      requires list.Valid()
      ensures this.forward == forward && Ready(list.nodes, if forward then list.nodes else Reversed(list.nodes))
    {
      this.forward := forward;
      next := if forward then list.head else list.tail;
      new;
      ghost var i := if forward then 0 else |list.nodes| - 1;
      assert -1 <= i <= |list.nodes| && next == NodeAt(list.nodes, i) && Ends(list.nodes, i);
      assert Pending(list.nodes, forward, i) == if forward then list.nodes else Reversed(list.nodes);
    }

    /** listNext */
    method Next(list: List<T>, ghost todo: seq<Node<T>>) returns (current: Node?<T>)
      requires list.Valid() && Ready(list.nodes, todo)
      modifies this
      ensures current == NodeAt(todo, 0)
      ensures Ready(list.nodes, if todo == [] then [] else todo[1..])
    {
      current := next;
      ghost var i :| -1 <= i <= |list.nodes| && next == NodeAt(list.nodes, i)
          && todo == Pending(list.nodes, forward, i) && Ends(list.nodes, i);
      if current != null {
        Neighbours(list.nodes, i);
        next := if forward then current.next else current.prev;
        ghost var j := if forward then i + 1 else i - 1;
        assert -1 <= j <= |list.nodes| && next == NodeAt(list.nodes, j) && Ends(list.nodes, j);
        assert Pending(list.nodes, forward, j) == todo[1..];
      } else {
        assert todo == [];
      }
    }

    /** Deleting the node just returned, the one at i, leaves the rest of the iteration as it is. */
    lemma {:induction false} DeletedBehind(nodes: seq<Node<T>>, i: nat, todo: seq<Node<T>>)
      requires i < |nodes| && NoDup(nodes)
      requires var j := if forward then i + 1 else i - 1; next == NodeAt(nodes, j) && todo == Pending(nodes, forward, j)
      ensures Ready(Removed(nodes, i), todo)
    {
      var r, k := Removed(nodes, i), if forward then i as int else i - 1;
      assert -1 <= k <= |r| && next == NodeAt(r, k) && Ends(r, k);
      assert Pending(r, forward, k) == todo;
    }
  }

  predicate Matches<T>(matches: T -> bool, v: T) { matches(v) }

  /** listSearchKey with a match method, or comparing the values themselves. */
  method SearchKey<T>(list: List<T>, matches: T -> bool) returns (n: Node?<T>, ghost at: nat)
    requires list.Valid()
    ensures n == NodeAt(list.nodes, at) && at <= |list.nodes|
    ensures forall i :: 0 <= i < at ==> !Matches(matches, list.nodes[i].value)
    ensures n != null ==> Matches(matches, n.value)
    ensures n == null ==> at == |list.nodes|
  {
    hide Matches, Linked, Pending, Reversed, ListIter.Ready;
    var iter := new ListIter(list, true);
    ghost var todo := list.nodes;
    at := 0;
    while true
      invariant at <= |list.nodes| && todo == list.nodes[at..] && iter.Ready(list.nodes, todo) && fresh(iter)
      invariant forall i :: 0 <= i < at ==> !Matches(matches, list.nodes[i].value)
      invariant list.Valid()
      decreases |todo|
      modifies iter
    {
      n := iter.Next(list, todo);
      if n == null { return; }
      if Matches(matches, n.value) { return; }
      todo, at := todo[1..], at + 1;
    }
  }
}
