// The intrusive circular queue: a head and nodes linked both ways, seen as the sequence of the nodes.
module IQueue {
  class Node {
    var next: Node?
    var prev: Node?

    /** A queue head, or a node alone: linked to itself. */
    constructor ()
      ensures Ring(this, [])
    {
      next, prev := this, this;
    }
  }

  /** The walk along a ring: the head, the nodes, and the head again. */
  function Walk(head: Node, s: seq<Node>): seq<Node> {
    [head] + s + [head]
  }

  /** The nodes at k and k + 1 of a walk are linked both ways. */
  ghost predicate LinkedAt(e: seq<Node>, next: map<Node, Node?>, prev: map<Node, Node?>, k: nat) {
    k + 1 < |e| && e[k] in next && e[k + 1] in prev && next[e[k]] == e[k + 1] && prev[e[k + 1]] == e[k]
  }

  ghost predicate Linked(e: seq<Node>, next: map<Node, Node?>, prev: map<Node, Node?>) {
    forall k: nat :: k + 1 < |e| ==> LinkedAt(e, next, prev, k)
  }

  predicate Distinct(head: Node, s: seq<Node>) {
    head !in s && forall i, j :: 0 <= i < j < |s| ==> s[i] != s[j]
  }

  ghost function Next(nodes: set<Node>): map<Node, Node?>
    reads nodes
  {
    map n | n in nodes :: n.next
  }

  ghost function Prev(nodes: set<Node>): map<Node, Node?>
    reads nodes
  {
    map n | n in nodes :: n.prev
  }

  function Nodes(head: Node, s: seq<Node>): set<Node> {
    {head} + set n | n in s
  }

  /** From head, next runs through all of s and back, prev the other way, and no node is there twice. */
  ghost predicate Ring(head: Node, s: seq<Node>)
    reads Nodes(head, s)
  {
    Distinct(head, s) && Linked(Walk(head, s), Next(Nodes(head, s)), Prev(Nodes(head, s)))
  }

  /** The nodes around position k of the queue: its predecessor, itself or the head, and their links. */
  lemma Neighbours(head: Node, s: seq<Node>, k: nat)
    requires Ring(head, s) && k <= |s|
    ensures Walk(head, s)[k].next == Walk(head, s)[k + 1] && Walk(head, s)[k + 1].prev == Walk(head, s)[k]
  {
    assert LinkedAt(Walk(head, s), Next(Nodes(head, s)), Prev(Nodes(head, s)), k);
  }

  /** A node linked in between two neighbours of a ring. */
  lemma {:induction false} InsertLinks(head: Node, s: seq<Node>, next: map<Node, Node?>, prev: map<Node, Node?>, i: nat,
                                       node: Node, at: Node, after: Node)
    requires Distinct(head, s) && Linked(Walk(head, s), next, prev) && i <= |s| && node !in [head] + s
    requires at == Walk(head, s)[i] && after == Walk(head, s)[i + 1]
    ensures Linked(Walk(head, s[..i] + [node] + s[i..]),
                   next[node := after][at := node], prev[node := at][after := node])
  {
    var e, q := Walk(head, s), Walk(head, s[..i] + [node] + s[i..]);
    var n, p := next[node := after][at := node], prev[node := at][after := node];
    Positions(head, s);
    assert |q| == |e| + 1 && (forall k :: 0 <= k <= i ==> q[k] == e[k]) && q[i + 1] == node;
    assert forall k :: i + 1 < k < |q| ==> q[k] == e[k - 1];
    forall k: nat | k + 1 < |q|
      ensures LinkedAt(q, n, p, k)
    {
      if k < i {
        assert LinkedAt(e, next, prev, k) && e[k] != at && e[k + 1] != after;
      } else if k > i + 1 {
        assert LinkedAt(e, next, prev, k - 1) && e[k - 1] != at && e[k] != after;
      }
    }
  }

  /** The nodes of a walk but its last are distinct, and so are those but its first. */
  lemma Positions(head: Node, s: seq<Node>)
    requires Distinct(head, s)
    ensures forall i, j :: 0 <= i < j <= |s| ==> Walk(head, s)[i] != Walk(head, s)[j]
    ensures forall i, j :: 0 < i < j <= |s| + 1 ==> Walk(head, s)[i] != Walk(head, s)[j]
    ensures forall i :: 0 <= i <= |s| + 1 ==> Walk(head, s)[i] in [head] + s
  {
  }

  /** A node linked out from between its neighbours in a ring. */
  lemma {:induction false} RemoveLinks(head: Node, s: seq<Node>, next: map<Node, Node?>, prev: map<Node, Node?>, i: nat,
                                       before: Node, after: Node)
    requires Distinct(head, s) && Linked(Walk(head, s), next, prev) && i < |s|
    requires before == Walk(head, s)[i] && after == Walk(head, s)[i + 2]
    ensures Linked(Walk(head, s[..i] + s[i + 1..]), next[before := after], prev[after := before])
  {
    var e, q := Walk(head, s), Walk(head, s[..i] + s[i + 1..]);
    var n, p := next[before := after], prev[after := before];
    Positions(head, s);
    assert LinkedAt(e, next, prev, i) && LinkedAt(e, next, prev, i + 1);
    assert |q| == |e| - 1 && (forall k :: 0 <= k <= i ==> q[k] == e[k]);
    assert forall k :: i < k < |q| ==> q[k] == e[k + 1];
    forall k: nat | k + 1 < |q|
      ensures LinkedAt(q, n, p, k)
    {
      if k < i {
        assert LinkedAt(e, next, prev, k) && e[k] != before && e[k + 1] != after;
      } else if k > i {
        assert LinkedAt(e, next, prev, k + 1) && e[k + 1] != before && e[k + 2] != after;
      }
    }
  }

  /** Only the links of the nodes in the walk matter. */
  lemma MakeRing(head: Node, s: seq<Node>, next: map<Node, Node?>, prev: map<Node, Node?>)
    requires Distinct(head, s) && Linked(Walk(head, s), next, prev)
    requires forall n :: n in Nodes(head, s) ==> n in next && n in prev && n.next == next[n] && n.prev == prev[n]
    ensures Ring(head, s)
  {
    var e := Walk(head, s);
    forall k: nat | k + 1 < |e|
      ensures LinkedAt(e, Next(Nodes(head, s)), Prev(Nodes(head, s)), k)
    {
      assert LinkedAt(e, next, prev, k) && e[k] in Nodes(head, s) && e[k + 1] in Nodes(head, s);
    }
  }

  lemma InsertNodes(head: Node, s: seq<Node>, i: nat, node: Node)
    requires Distinct(head, s) && i <= |s| && node !in [head] + s
    ensures Distinct(head, s[..i] + [node] + s[i..])
    ensures Nodes(head, s[..i] + [node] + s[i..]) == Nodes(head, s) + {node}
  {
  }

  lemma RemoveNodes(head: Node, s: seq<Node>, i: nat)
    requires Distinct(head, s) && i < |s|
    ensures Distinct(head, s[..i] + s[i + 1..])
    ensures Nodes(head, s[..i] + s[i + 1..]) == Nodes(head, s) - {s[i]}
  {
  }

  /** Puts a node behind another one of the ring, the head included. */
  method Add(node: Node, at: Node, ghost head: Node, ghost s: seq<Node>, ghost i: nat)
    requires Ring(head, s) && node !in [head] + s
    requires i <= |s| && at == Walk(head, s)[i]
    modifies Nodes(head, s), node
    ensures Ring(head, s[..i] + [node] + s[i..])
  {
    hide Linked, Distinct;
    ghost var next, prev := Next(Nodes(head, s)), Prev(Nodes(head, s));
    Neighbours(head, s, i);
    ghost var after := Walk(head, s)[i + 1];
    InsertLinks(head, s, next, prev, i, node, at, after);
    InsertNodes(head, s, i, node);
    hide Ring;
    node.prev := at;
    node.next := at.next;
    at.next.prev := node;
    at.next := node;
    MakeRing(head, s[..i] + [node] + s[i..], next[node := after][at := node], prev[node := at][after := node]);
  }

  /** Puts a node in front of the head: at the end. */
  method AddTail(node: Node, head: Node, ghost s: seq<Node>)
    requires Ring(head, s) && node !in [head] + s
    modifies Nodes(head, s), node
    ensures Ring(head, s + [node])
  {
    hide Linked, Distinct;
    ghost var next, prev := Next(Nodes(head, s)), Prev(Nodes(head, s));
    Neighbours(head, s, |s|);
    ghost var at := Walk(head, s)[|s|];
    InsertLinks(head, s, next, prev, |s|, node, at, head);
    InsertNodes(head, s, |s|, node);
    assert s[..|s|] + [node] + s[|s|..] == s + [node];
    hide Ring;
    node.prev := head.prev;
    node.next := head;
    head.prev.next := node;
    head.prev := node;
    MakeRing(head, s + [node], next[node := head][at := node], prev[node := at][head := node]);
  }

  /** Takes a node out of the ring. */
  method Del(entry: Node, ghost head: Node, ghost s: seq<Node>, ghost i: nat)
    requires Ring(head, s) && i < |s| && entry == s[i]
    modifies Nodes(head, s)
    ensures Ring(head, s[..i] + s[i + 1..]) && entry.next == null && entry.prev == null
  {
    hide Linked, Distinct;
    ghost var next, prev := Next(Nodes(head, s)), Prev(Nodes(head, s));
    Neighbours(head, s, i);
    Neighbours(head, s, i + 1);
    ghost var before, after := Walk(head, s)[i], Walk(head, s)[i + 2];
    RemoveLinks(head, s, next, prev, i, before, after);
    RemoveNodes(head, s, i);
    hide Ring;
    entry.next.prev := entry.prev;
    entry.prev.next := entry.next;
    entry.next := null;
    entry.prev := null;
    MakeRing(head, s[..i] + s[i + 1..], next[before := after], prev[after := before]);
  }

  predicate IsEmpty(head: Node)
    reads head
  {
    head == head.next
  }

  /** A ring is empty exactly if its head is linked to itself. */
  lemma EmptyRing(head: Node, s: seq<Node>)
    requires Ring(head, s)
    ensures IsEmpty(head) <==> s == []
  {
    Neighbours(head, s, 0);
  }
}
