/** Circular doubly linked intrusive lists (include/list.h). A list is a ring of nodes that includes
    its head node; the head's own position is index 0 of the sequence that describes the ring. */
module KernelRing {

  class ListNode {
    var prev: ListNode?
    var next: ListNode?

    constructor ()
      ensures prev == null && next == null
    {
      prev, next := null, null;
    }
  }

  function Succ(i: nat, n: nat): nat { if i + 1 == n then 0 else i + 1 }
  function Pred(i: nat, n: nat): nat
    requires n > 0
  {
    if i == 0 then n - 1 else i - 1
  }

  ghost predicate NoDup(r: seq<ListNode>) {
    forall i, j :: 0 <= i < j < |r| ==> r[i] != r[j]
  }

  /** The nodes of `r`, in this order, form one ring. */
  ghost predicate Ring(r: seq<ListNode>)
    reads r
  {
    && |r| > 0 && NoDup(r)
    && (forall i {:trigger r[i].next} :: 0 <= i < |r| ==> r[i].next == r[Succ(i, |r|)])
    && (forall i {:trigger r[i].prev} :: 0 <= i < |r| ==> r[i].prev == r[Pred(i, |r|)])
  }

  /** In no ring. */
  ghost predicate Cleared(node: ListNode)
    reads node
  {
    node.prev == null && node.next == null
  }

  method Initialize(list: ListNode)
    modifies list
    ensures Ring([list])
  {
    list.prev, list.next := list, list;
  }

  /** `r` with `node` inserted in front of its k-th node; in front of the head is at the end. */
  ghost function Inserted(r: seq<ListNode>, k: nat, node: ListNode): seq<ListNode>
    requires k < |r|
  {
    if k == 0 then r + [node] else r[..k] + [node] + r[k..]
  }

  ghost function Removed(r: seq<ListNode>, k: nat): seq<ListNode>
    requires k < |r|
  {
    r[..k] + r[k + 1..]
  }

  /** A ring has no first node of its own. */
  lemma Rotate(a: seq<ListNode>, b: seq<ListNode>)
    requires Ring(a + b)
    ensures Ring(b + a)
  {
    var r, t := a + b, b + a;
    forall i | 0 <= i < |t|
      ensures t[i].next == t[Succ(i, |t|)] && t[i].prev == t[Pred(i, |t|)]
    {
      var o := if i < |b| then |a| + i else i - |b|;
      assert t[i] == r[o] && r[o].next == r[Succ(o, |r|)] && r[o].prev == r[Pred(o, |r|)];
    }
    forall i, j | 0 <= i < j < |t| ensures t[i] != t[j] {
      assert t[i] == r[if i < |b| then |a| + i else i - |b|];
      assert t[j] == r[if j < |b| then |a| + j else j - |b|];
    }
  }

  /** The four assignments that list_add_head and list_add_tail both consist of. */
  method Link(head: ListNode, node: ListNode, ghost t: seq<ListNode>)
    requires Ring(t) && t[0] == head && node !in t
    modifies node, head, head.prev
    ensures Ring(t + [node])
    ensures node.prev == old(head.prev) && node.next == head
  {
    assert head.prev == t[|t| - 1];
    node.prev := head.prev;
    node.next := head;
    head.prev.next := node;
    head.prev := node;
  }

  /** list_add_tail, and list_add_before for a node that is not the head. */
  method AddTail(head: ListNode, node: ListNode, ghost r: seq<ListNode>, ghost k: nat)
    requires Ring(r) && k < |r| && r[k] == head && node !in r
    modifies node, head, head.prev
    ensures Ring(Inserted(r, k, node))
    ensures node.prev == old(head.prev) && node.next == head
  {
    ghost var a, b := r[..k], r[k..];
    assert r == a + b;
    Rotate(a, b);
    Link(head, node, b + a);
    assert b + a + [node] == b + (a + [node]);
    if k > 0 { Rotate(b, a + [node]); } else { assert b + (a + [node]) == r + [node]; }
  }

  /** list_add_head appends, like list_add_tail. */
  method AddHead(head: ListNode, node: ListNode, ghost r: seq<ListNode>)
    requires Ring(r) && r[0] == head && node !in r
    modifies node, head, head.prev
    ensures Ring(r + [node])
  {
    Link(head, node, r);
  }

  /** A ring that is open between its last node and its first. */
  ghost predicate Open(s: seq<ListNode>)
    reads s
  {
    && |s| > 0 && NoDup(s)
    && (forall i {:trigger s[i].next} :: 0 <= i < |s| - 1 ==> s[i].next == s[i + 1])
    && (forall i {:trigger s[i].prev} :: 0 < i < |s| ==> s[i].prev == s[i - 1])
  }

  lemma OpenedByRemoval(s: seq<ListNode>, node: ListNode)
    requires Ring(s + [node]) && s != []
    ensures Open(s) && node !in s && node.next == s[0] && node.prev == s[|s| - 1]
  {
    var t, n := s + [node], |s|;
    assert t[n] == node && t[0] == s[0] && t[n - 1] == s[n - 1];
    assert forall i :: 0 <= i < n ==> t[i] == s[i] && t[i] != node;
    forall i | 0 <= i < n
      ensures i < n - 1 ==> s[i].next == s[i + 1]
      ensures 0 < i ==> s[i].prev == s[i - 1]
    {
      assert t[i].next == t[Succ(i, n + 1)] && t[i].prev == t[Pred(i, n + 1)];
    }
  }

  lemma Closed(s: seq<ListNode>)
    requires Open(s) && s[|s| - 1].next == s[0] && s[0].prev == s[|s| - 1]
    ensures Ring(s)
  {
  }

  method Unlink(node: ListNode, ghost s: seq<ListNode>)
    requires Ring(s + [node]) && s != []
    modifies node, node.prev, node.next
    ensures Ring(s) && Cleared(node) && node !in s
  {
    OpenedByRemoval(s, node);
    node.next.prev := node.prev;
    node.prev.next := node.next;
    node.prev, node.next := null, null;
    assert Open(s);
    Closed(s);
  }

  /** list_delete. */
  method Delete(node: ListNode, ghost r: seq<ListNode>, ghost k: nat)
    requires Ring(r) && 0 < k < |r| && r[k] == node
    modifies node, node.prev, node.next
    ensures Ring(Removed(r, k)) && Cleared(node) && node !in Removed(r, k)
  {
    ghost var a, b := r[..k], r[k + 1..];
    assert r == (a + [node]) + b;
    Rotate(a + [node], b);
    assert b + (a + [node]) == (b + a) + [node];
    Unlink(node, b + a);
    Rotate(b, a);
  }

  method RemoveHead(head: ListNode, ghost r: seq<ListNode>) returns (node: ListNode?)
    requires Ring(r) && r[0] == head
    modifies r
    ensures if |r| == 1 then node == null && Ring(r) else
              node == r[1] && Cleared(r[1]) && Ring([head] + r[2..])
  {
    assert head.next == r[Succ(0, |r|)];
    if head.next != head {
      node := head.next;
      Delete(node, r, 1);
      assert Removed(r, 1) == [head] + r[2..];
    } else {
      node := null;
    }
  }

  method RemoveTail(head: ListNode, ghost r: seq<ListNode>) returns (node: ListNode?)
    requires Ring(r) && r[0] == head
    modifies r
    ensures if |r| == 1 then node == null && Ring(r) else
              node == r[|r| - 1] && Cleared(r[|r| - 1]) && Ring(r[..|r| - 1])
  {
    assert head.prev == r[Pred(0, |r|)];
    if head.prev != head {
      node := head.prev;
      Delete(node, r, |r| - 1);
      assert Removed(r, |r| - 1) == r[..|r| - 1];
    } else {
      node := null;
    }
  }

  method PeekHead(head: ListNode, ghost r: seq<ListNode>) returns (node: ListNode?)
    requires Ring(r) && r[0] == head
    ensures node == if |r| == 1 then null else r[1]
  {
    assert head.next == r[Succ(0, |r|)];
    node := if head.next != head then head.next else null;
  }

  method PeekTail(head: ListNode, ghost r: seq<ListNode>) returns (node: ListNode?)
    requires Ring(r) && r[0] == head
    ensures node == if |r| == 1 then null else r[|r| - 1]
  {
    assert head.prev == r[Pred(0, |r|)];
    node := if head.prev != head then head.prev else null;
  }

  method IsEmpty(head: ListNode, ghost r: seq<ListNode>) returns (b: bool)
    requires Ring(r) && r[0] == head
    ensures b <==> |r| == 1
  {
    assert head.next == r[Succ(0, |r|)];
    b := head.next == head;
  }

  /** list_length: the walk along `next` comes back to the head after all other nodes. */
  method Length(head: ListNode, ghost r: seq<ListNode>) returns (n: nat)
    requires Ring(r) && r[0] == head
    ensures n == |r| - 1
  {
    n := 0;
    var node := head.next;
    assert node == r[Succ(0, |r|)];
    while node != head
      invariant n < |r| && node == r[Succ(n, |r|)]
      decreases |r| - n
    {
      assert Succ(n, |r|) == n + 1;
      assert r[n + 1].next == r[Succ(n + 1, |r|)];
      node := node.next;
      n := n + 1;
    }
  }

  function Around(i: nat, k: nat, n: nat): (j: nat)
    requires i < n
    ensures j < n
  {
    if k == 0 then i else Succ(Around(i, k - 1, n), n)
  }

  /** Two rings that share a node are the same ring, seen from different places. */
  lemma {:induction false} SharedNodeMeansSameRing(r1: seq<ListNode>, i: nat, r2: seq<ListNode>, j: nat, k: nat)
    requires Ring(r1) && Ring(r2) && i < |r1| && j < |r2| && r1[i] == r2[j]
    ensures r1[Around(i, k, |r1|)] == r2[Around(j, k, |r2|)]
  {
    if k > 0 {
      SharedNodeMeansSameRing(r1, i, r2, j, k - 1);
      var a, b := Around(i, k - 1, |r1|), Around(j, k - 1, |r2|);
      assert r1[a].next == r1[Succ(a, |r1|)] && r2[b].next == r2[Succ(b, |r2|)];
    }
  }

  lemma {:induction false} AroundReaches(i: nat, n: nat, j: nat)
    requires i < n && j < n
    ensures Around(i, if j >= i then j - i else j + n - i, n) == j
    decreases if j >= i then j - i else j + n - i
  {
    if j != i {
      var p := Pred(j, n);
      AroundReaches(i, n, p);
    }
  }

  /** So a node that is in two rings has all their nodes in common: no node is in two different rings. */
  lemma SharedNodeMeansSameNodes(r1: seq<ListNode>, i: nat, r2: seq<ListNode>, j: nat, m: nat)
    requires Ring(r1) && Ring(r2) && i < |r1| && j < |r2| && r1[i] == r2[j] && m < |r1|
    ensures r1[m] in r2
  {
    AroundReaches(i, |r1|, m);
    SharedNodeMeansSameRing(r1, i, r2, j, if m >= i then m - i else m + |r1| - i);
  }

  /** list_in_list: of a node that is in a given ring, or in none because it has been taken out of the
      last, it tells whether it is in that ring. */
  method InList(node: ListNode) returns (b: bool)
    ensures forall r :: Ring(r) && (node in r || Cleared(node)) ==> (b <==> node in r)
    ensures Cleared(node) ==> !b
  {
    forall r | Ring(r) && node in r ensures !Cleared(node) { InRingNotCleared(r); }
    b := !(node.prev == null && node.next == null);
  }

  twostate predicate SameLinks(x: ListNode)
    reads x
  {
    x.prev == old(x.prev) && x.next == old(x.next)
  }

  /** A ring stays one as long as its nodes keep their links. */
  twostate lemma RingStays(r: seq<ListNode>)
    requires old(Ring(r)) && forall x <- r :: SameLinks(x)
    ensures Ring(r)
  {
    forall i | 0 <= i < |r| ensures r[i].next == r[Succ(i, |r|)] && r[i].prev == r[Pred(i, |r|)] {
      assert SameLinks(r[i]);
      assert old(r[i].next) == r[Succ(i, |r|)] && old(r[i].prev) == r[Pred(i, |r|)];
    }
  }

  // ---------------------------------------------------------------- a queue is a head and what follows it

  /** The run queues, wait queues and the timer queue: sequences as the scheduler's model uses them. */
  class NodeQueue {
    const head: ListNode
    ghost var nodes: seq<ListNode>

    ghost predicate Valid()
      reads this, head, nodes
    {
      Ring([head] + nodes)
    }

    constructor ()
      ensures Valid() && nodes == [] && fresh(head)
    {
      head := new ListNode();
      nodes := [];
      new;
      assert [head] + nodes == [head];
      Initialize(head);
    }

    /** Both list_add_head and list_add_tail. */
    method Append(node: ListNode)
      requires Valid() && Cleared(node)
      modifies this, head, nodes, node
      ensures Valid() && nodes == old(nodes) + [node]
    {
      ghost var r := [head] + nodes;
      Neighbours(r, 0);
      assert forall x <- r :: x == head || x in nodes;
      InRingNotCleared(r);
      AddHead(head, node, r);
      nodes := nodes + [node];
      assert r + [node] == [head] + nodes;
    }

    /** list_remove_head, or list_delete of the node list_foreach_entry comes to first. */
    method TakeFirst() returns (node: ListNode?)
      requires Valid()
      modifies this, head, nodes
      ensures Valid()
      ensures if old(nodes) == [] then node == null && nodes == [] else
                node == old(nodes)[0] && nodes == old(nodes)[1..] && Cleared(old(nodes)[0])
    {
      ghost var r := [head] + nodes;
      assert forall x <- r :: x == head || x in nodes;
      node := RemoveHead(head, r);
      if node != null {
        assert r[2..] == nodes[1..];
        nodes := nodes[1..];
      }
    }

    /** list_delete of a queued node, wherever it stands. */
    method Remove(node: ListNode, ghost i: nat)
      requires Valid() && i < |nodes| && nodes[i] == node
      modifies this, head, nodes
      ensures Valid() && nodes == old(nodes)[..i] + old(nodes)[i + 1..] && Cleared(node)
    {
      ghost var r := [head] + nodes;
      Neighbours(r, i + 1);
      assert forall x <- r :: x == head || x in nodes;
      RemovedBehindHead(head, nodes, i);
      Delete(node, r, i + 1);
      nodes := nodes[..i] + nodes[i + 1..];
    }
  }

  twostate lemma QueueStays(q: NodeQueue)
    requires old(q.Valid()) && q.nodes == old(q.nodes) && SameLinks(q.head) && forall x <- q.nodes :: SameLinks(x)
    ensures q.Valid()
  {
    var r := [q.head] + q.nodes;
    assert forall x <- r :: x == q.head || x in q.nodes;
    RingStays(r);
  }

  lemma RemovedBehindHead(head: ListNode, nodes: seq<ListNode>, i: nat)
    requires i < |nodes|
    ensures Removed([head] + nodes, i + 1) == [head] + (nodes[..i] + nodes[i + 1..])
  {
  }

  lemma Neighbours(r: seq<ListNode>, i: nat)
    requires Ring(r) && i < |r|
    ensures r[i].next != null && r[i].prev != null && r[i].next in r && r[i].prev in r
  {
    assert r[i].next == r[Succ(i, |r|)] && r[i].prev == r[Pred(i, |r|)];
  }

  lemma InRingNotCleared(r: seq<ListNode>)
    requires Ring(r)
    ensures forall x <- r :: !Cleared(x)
  {
    forall x | x in r ensures !Cleared(x) {
      var i :| 0 <= i < |r| && r[i] == x;
      assert r[i].next == r[Succ(i, |r|)];
    }
  }
}
