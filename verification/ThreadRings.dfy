/** The queues of the scheduler as rings of list nodes (include/list.h, kernel/thread.c,
    kernel/wait_queue.c): a thread has one queue_node, each run queue and each wait queue has a head, and
    a queue is the ring from its head on. */
module KernelThreadRings {
  import opened Common
  import opened KernelRing
  import opened KernelSchedulerState

  /** Where a thread may be queued. */
  datatype Place = Run(p: nat) | Wait(q: Qid)

  type Lists = map<Place, seq<Tid>>

  ghost predicate Nowhere(lists: Lists, t: Tid) { forall c <- lists :: t !in lists[c] }

  /** No thread is queued in two places. */
  ghost predicate OnePlace(lists: Lists) {
    forall c, d, t :: c in lists && d in lists && t in lists[c] && t in lists[d] ==> c == d
  }

  class ThreadRings {
    const node: map<Tid, ListNode>
    const queue: map<Place, NodeQueue>
    // From a queue_node to its thread.
    const owner: map<ListNode, Tid>
    // All queues, in some order.
    ghost const order: seq<Place>
    ghost const nodes: set<ListNode>
    ghost const queues: set<NodeQueue>

    /** The nodes and the heads are all different. */
    ghost predicate Separate() {
      && (forall t <- node :: node[t] in nodes) && (forall c <- queue :: queue[c] in queues && queue[c].head in nodes)
      && (forall t <- node :: node[t] in owner && owner[node[t]] == t)
      && (forall c, d :: c in queue && d in queue && (queue[c] == queue[d] || queue[c].head == queue[d].head) ==>
        c == d)
      && (forall c, t :: c in queue && t in node ==> queue[c].head != node[t])
      && forall c :: c in order <==> c in queue
    }

    /** The nodes of the threads in the list, in this order. */
    ghost predicate Holds(ns: seq<ListNode>, list: seq<Tid>) {
      && |ns| == |list| && (forall t <- list :: t in node)
      && forall i :: 0 <= i < |list| ==> ns[i] == node[list[i]]
    }

    /** The ring of a queue is well formed and holds its list. */
    ghost predicate QueueOk(c: Place, lists: Lists)
      reads nodes, queues
    {
      && c in queue && c in lists && queue[c] in queues && queue[c].head in nodes &&
        (forall n <- queue[c].nodes :: n in nodes)
      && Holds(queue[c].nodes, lists[c]) && queue[c].Valid()
    }

    /** Everybody is in one queue at most; a node that is in no queue is cleared. */
    ghost predicate NodesOk(lists: Lists)
      reads nodes
    {
      && Separate() && lists.Keys == queue.Keys && OnePlace(lists)
      && forall t <- node :: Nowhere(lists, t) ==> Cleared(node[t])
    }

    /** The first `n` queues and the nodes are as they should be. */
    ghost predicate Upto(n: nat, lists: Lists)
      reads nodes, queues
    {
      if n == 0 then NodesOk(lists) else (n <= |order| ==> QueueOk(order[n - 1], lists)) && Upto(n - 1, lists)
    }

    ghost predicate Valid(lists: Lists)
      reads nodes, queues
    {
      Upto(|order| + 1, lists)
    }

    ghost predicate Whole(lists: Lists)
      reads nodes, queues
    {
      NodesOk(lists) && forall c <- queue :: QueueOk(c, lists)
    }

    lemma {:induction false} Opened(n: nat, lists: Lists)
      requires Upto(n, lists)
      ensures NodesOk(lists) && (n <= |order| ==> forall c <- order[..n] :: QueueOk(c, lists))
    {
      if n > 0 {
        Opened(n - 1, lists);
        assert n <= |order| ==> order[..n] == order[..n - 1] + [order[n - 1]];
      }
    }

    lemma {:induction false} Closed(n: nat, lists: Lists)
      requires NodesOk(lists) && n <= |order| && forall c <- order[..n] :: QueueOk(c, lists)
      ensures Upto(n, lists)
    {
      if n > 0 {
        assert order[..n] == order[..n - 1] + [order[n - 1]];
        Closed(n - 1, lists);
      }
    }

    lemma ValidIsWhole(lists: Lists)
      ensures Valid(lists) <==> Whole(lists)
    {
      assert order[..|order|] == order;
      if Valid(lists) { Opened(|order|, lists); }
      if Whole(lists) { Closed(|order|, lists); }
    }

    constructor (node: map<Tid, ListNode>, queue: map<Place, NodeQueue>, ghost order: seq<Place>)
      requires forall t, u :: t in node && u in node && node[t] == node[u] ==> t == u
      ensures this.node == node && this.queue == queue && this.order == order
      ensures forall t <- node :: node[t] in owner && owner[node[t]] == t
      ensures nodes == (set t <- node :: node[t]) + (set c <- queue :: queue[c].head)
      ensures queues == set c <- queue :: queue[c]
    {
      this.node, this.queue, this.order := node, queue, order;
      owner := map t | t in node :: node[t] := t;
      nodes := (set t <- node :: node[t]) + (set c <- queue :: queue[c].head);
      queues := set c <- queue :: queue[c];
    }

    lemma StartsWhole()
      requires forall c :: c in order <==> c in queue
      requires forall t, u :: t in node && u in node && node[t] == node[u] ==> t == u
      requires forall c, d :: c in queue && d in queue && (queue[c] == queue[d] || queue[c].head == queue[d].head) ==>
                c == d
      requires forall c, t :: c in queue && t in node ==> queue[c].head != node[t]
      requires forall t <- node :: Cleared(node[t])
      requires forall c <- queue :: queue[c].Valid() && queue[c].nodes == []
      requires forall t <- node :: node[t] in owner && owner[node[t]] == t
      requires nodes == (set t <- node :: node[t]) + (set c <- queue :: queue[c].head)
      requires queues == set c <- queue :: queue[c]
      ensures Valid(map c | c in queue :: [])
    {
      var none: Lists := map c | c in queue :: [];
      assert Separate();
      forall c <- queue ensures QueueOk(c, none) { assert Holds([], none[c]); }
      ValidIsWhole(none);
    }

    ghost function Others(c: Place): set<NodeQueue> { set d | d in queue && d != c :: queue[d] }

    /** The nodes of the threads that are in no queue, apart from `t`. */
    ghost function Idle(lists: Lists, t: Tid): set<ListNode> {
      set u | u in node && u != t && Nowhere(lists, u) :: node[u]
    }

    lemma CellOf(lists: Lists, c: Place, n: ListNode) returns (i: nat)
      requires Whole(lists) && c in queue && n in queue[c].nodes
      ensures i < |lists[c]| && lists[c][i] in node && node[lists[c][i]] == n
    {
      i :| 0 <= i < |queue[c].nodes| && queue[c].nodes[i] == n;
      assert lists[c][i] in lists[c];
    }

    lemma QueuesAway(lists: Lists, c: Place, d: Place, t: Tid)
      requires Whole(lists) && c in queue && d in queue && d != c && t in node && t !in lists[d]
      ensures Away(queue[d], queue[c], node[t])
    {
      forall n <- queue[d].nodes ensures n != queue[c].head && n !in queue[c].nodes && n != node[t] {
        var i := CellOf(lists, d, n);
        var u := lists[d][i];
        assert u in lists[d] && owner[n] == u;
        if n in queue[c].nodes { var k := CellOf(lists, c, n); }
      }
      if queue[d].head in queue[c].nodes { var k := CellOf(lists, c, queue[d].head); }
    }

    lemma IdleAway(lists: Lists, c: Place, t: Tid)
      requires Whole(lists) && c in queue && t in node
      ensures forall n <- Idle(lists, t) :: Cleared(n) && n != queue[c].head && n !in queue[c].nodes && n != node[t]
    {
      forall n <- Idle(lists, t) ensures n !in queue[c].nodes {
        if n in queue[c].nodes { var i := CellOf(lists, c, n); }
      }
    }

    lemma AllAway(lists: Lists, c: Place, t: Tid)
      requires Whole(lists) && c in queue && t in node && forall d <- queue :: t in lists[d] ==> d == c
      ensures forall o <- Others(c) :: o.Valid() && Away(o, queue[c], node[t])
      ensures forall n <- Idle(lists, t) :: Cleared(n) && n != queue[c].head && n !in queue[c].nodes && n != node[t]
      ensures forall n <- queue[c].nodes :: n in nodes
    {
      forall d <- queue | d != c ensures Away(queue[d], queue[c], node[t]) { QueuesAway(lists, c, d, t); }
      IdleAway(lists, c, t);
      forall n <- queue[c].nodes ensures n in nodes { var i := CellOf(lists, c, n); }
    }

    lemma IsWhole(lists: Lists)
      requires Separate() && lists.Keys == queue.Keys && OnePlace(lists)
      requires forall c <- queue :: Holds(queue[c].nodes, lists[c]) && queue[c].Valid()
      requires forall t <- node :: Nowhere(lists, t) ==> Cleared(node[t])
      ensures Whole(lists)
    {
      forall c <- queue ensures QueueOk(c, lists) {
        forall n <- queue[c].nodes ensures n in nodes {
          var i :| 0 <= i < |queue[c].nodes| && queue[c].nodes[i] == n;
          assert lists[c][i] in lists[c];
        }
      }
    }

    method AppendRing(c: Place, t: Tid, ghost lists: Lists)
      requires Whole(lists) && c in queue && t in node && Nowhere(lists, t)
      modifies nodes, queues
      ensures forall d <- queue :: queue[d].Valid()
      ensures forall d <- queue :: queue[d].nodes == if d == c then old(queue[d].nodes) + [node[t]]
                else old(queue[d].nodes)
      ensures forall u <- node :: Nowhere(lists, u) && u != t ==> Cleared(node[u])
    {
      AllAway(lists, c, t);
      ghost var idle := Idle(lists, t);
      AppendBeside(queue[c], node[t], Others(c), idle);
      assert forall u <- node :: Nowhere(lists, u) && u != t ==> node[u] in idle;
      assert forall d <- queue :: d != c ==> queue[d] in Others(c);
    }

    lemma Appended(ns: seq<ListNode>, list: seq<Tid>, t: Tid)
      requires Holds(ns, list) && t in node
      ensures Holds(ns + [node[t]], list + [t])
    {
      assert forall u <- list + [t] :: u in list || u == t;
    }

    /** list_add_head and list_add_tail of a thread's node. */
    method Append(c: Place, t: Tid, ghost lists: Lists)
      requires Valid(lists) && c in queue && c in lists && t in node && Nowhere(lists, t)
      modifies nodes, queues
      ensures Valid(lists[c := lists[c] + [t]])
    {
      ValidIsWhole(lists);
      AppendWhole(c, t, lists);
      ValidIsWhole(lists[c := lists[c] + [t]]);
    }

    method AppendWhole(c: Place, t: Tid, ghost lists: Lists)
      requires Whole(lists) && c in queue && t in node && Nowhere(lists, t)
      modifies nodes, queues
      ensures Whole(lists[c := lists[c] + [t]])
    {
      AppendedLists(lists, c, t);
      Appended(queue[c].nodes, lists[c], t);
      AppendRing(c, t, lists);
      IsWhole(lists[c := lists[c] + [t]]);
    }

    /** What the lists are without the i-th of the list of `c`. */
    ghost predicate IsRemoval(lists: Lists, c: Place, i: nat, lists': Lists)
      requires c in queue && lists.Keys == queue.Keys && i < |lists[c]|
      reads queue[c]
    {
      && lists'.Keys == lists.Keys && OnePlace(lists')
      && (forall u :: Nowhere(lists', u) <==> Nowhere(lists, u) || u == lists[c][i])
      && (forall d <- queue :: d != c ==> lists'[d] == lists[d])
      && i < |queue[c].nodes| && Holds(queue[c].nodes[..i] + queue[c].nodes[i + 1..], lists'[c])
    }

    lemma Removal(lists: Lists, c: Place, i: nat)
      requires Whole(lists) && c in queue && i < |lists[c]|
      ensures IsRemoval(lists, c, i, lists[c := lists[c][..i] + lists[c][i + 1..]])
    {
      NoneTwice(lists, c);
      RemovedLists(lists, c, i);
      RemovedAt(queue[c].nodes, lists[c], i);
    }

    lemma RemovedAt(ns: seq<ListNode>, list: seq<Tid>, i: nat)
      requires Holds(ns, list) && i < |list|
      ensures Holds(ns[..i] + ns[i + 1..], list[..i] + list[i + 1..])
    {
      assert forall u <- list[..i] + list[i + 1..] :: u in list;
    }

    method RemoveRing(c: Place, t: Tid, ghost i: nat, ghost lists: Lists, ghost lists': Lists)
      requires Whole(lists) && c in queue && i < |lists[c]| && lists[c][i] == t && IsRemoval(lists, c, i, lists')
      modifies nodes, queues
      ensures forall d <- queue :: queue[d].Valid()
      ensures Holds(queue[c].nodes, lists'[c]) && forall d <- queue :: d != c ==> queue[d].nodes == old(queue[d].nodes)
      ensures forall u <- node :: Nowhere(lists, u) || u == t ==> Cleared(node[u])
    {
      AllAway(lists, c, t);
      ghost var idle := Idle(lists, t);
      RemoveBeside(queue[c], node[t], i, Others(c), idle);
      assert forall u <- node :: Nowhere(lists, u) && u != t ==> node[u] in idle;
      assert forall d <- queue :: d != c ==> queue[d] in Others(c);
    }

    /** A thread's node is in the ring of a queue exactly if the thread is in its list. */
    lemma NodesListed(lists: Lists, t: Tid, c: Place)
      requires Valid(lists) && t in node && c in queue
      ensures c in lists && queue[c].Valid() && (node[t] in queue[c].nodes <==> t in lists[c])
      ensures Nowhere(lists, t) ==> Cleared(node[t])
    {
      ValidIsWhole(lists);
      assert QueueOk(c, lists);
      if node[t] in queue[c].nodes {
        var i := CellOf(lists, c, node[t]);
        assert owner[node[t]] == lists[c][i];
      }
      if t in lists[c] {
        var i :| 0 <= i < |lists[c]| && lists[c][i] == t;
        assert queue[c].nodes[i] == node[t];
      }
    }

    lemma Leaves(lists: Lists, c: Place, i: nat)
      requires Valid(lists) && c in queue && c in lists && i < |lists[c]|
      ensures Nowhere(lists[c := lists[c][..i] + lists[c][i + 1..]], lists[c][i])
    {
      ValidIsWhole(lists);
      Removal(lists, c, i);
    }

    method RemoveAs(c: Place, t: Tid, ghost i: nat, ghost lists: Lists, ghost lists': Lists)
      requires Whole(lists) && c in queue && i < |lists[c]| && lists[c][i] == t && IsRemoval(lists, c, i, lists')
      modifies nodes, queues
      ensures Whole(lists')
    {
      RemoveRing(c, t, i, lists, lists');
      IsWhole(lists');
    }

    /** list_delete of a queued thread's node. */
    method Remove(c: Place, t: Tid, ghost i: nat, ghost lists: Lists)
      requires Valid(lists) && c in queue && c in lists && i < |lists[c]| && lists[c][i] == t
      modifies nodes, queues
      ensures Valid(lists[c := lists[c][..i] + lists[c][i + 1..]])
    {
      ValidIsWhole(lists);
      Removal(lists, c, i);
      RemoveAs(c, t, i, lists, lists[c := lists[c][..i] + lists[c][i + 1..]]);
      ValidIsWhole(lists[c := lists[c][..i] + lists[c][i + 1..]]);
    }

    lemma NoneTwice(lists: Lists, c: Place)
      requires Whole(lists) && c in queue
      ensures forall j, k :: 0 <= j < k < |lists[c]| ==> lists[c][j] != lists[c][k]
    {
      var q, r := queue[c], [queue[c].head] + queue[c].nodes;
      forall j, k | 0 <= j < k < |lists[c]| ensures lists[c][j] != lists[c][k] {
        assert r[j + 1] == q.nodes[j] && r[k + 1] == q.nodes[k];
      }
    }

    /** The thread whose node comes first. */
    method First(c: Place, ghost lists: Lists) returns (t: Tid)
      requires Valid(lists) && c in queue && c in lists && lists[c] != []
      ensures t == lists[c][0]
    {
      ValidIsWhole(lists);
      ghost var r := [queue[c].head] + queue[c].nodes;
      var n := PeekHead(queue[c].head, r);
      assert r[1] == queue[c].nodes[0] && lists[c][0] in lists[c];
      t := owner[n];
    }

    /** A new thread's memory is cleared and its exit queue initialized; its node was in no queue and
        nobody waits in that queue, so nothing changes. */
    method Reset(t: Tid, c: Place, ghost lists: Lists)
      requires Valid(lists) && t in node && Nowhere(lists, t) && c in queue && c in lists && lists[c] == []
      modifies nodes
      ensures Valid(lists)
    {
      ValidIsWhole(lists);
      assert queue[c].nodes == [] && [queue[c].head] + [] == [queue[c].head];
      ResetCells(node[t], queue[c].head);
      NothingChanged(lists);
      ValidIsWhole(lists);
    }

    twostate lemma NothingChanged(lists: Lists)
      requires old(Whole(lists)) && (forall q <- queues :: q.nodes == old(q.nodes)) && forall n <- nodes :: SameLinks(n)
      ensures Whole(lists)
    {
      forall c <- queue ensures queue[c].Valid() {
        forall x <- queue[c].nodes ensures SameLinks(x) {
          var i :| 0 <= i < |queue[c].nodes| && queue[c].nodes[i] == x;
          assert lists[c][i] in lists[c];
        }
        QueueStays(queue[c]);
      }
    }

    /** list_is_empty of a queue. */
    method Empty(c: Place, ghost lists: Lists) returns (b: bool)
      requires Valid(lists) && c in queue && c in lists
      ensures b <==> lists[c] == []
    {
      ValidIsWhole(lists);
      b := IsEmpty(queue[c].head, [queue[c].head] + queue[c].nodes);
    }

    // -------------------------------------------------------------- in terms of the scheduler's queues

    /** The rings hold these run queues and wait queues. */
    ghost predicate Hold(runQueue: seq<seq<Tid>>, waits: Waits)
      reads nodes, queues
    {
      Valid(ListsIn(queue.Keys, runQueue, waits))
    }

    ghost predicate Unqueued(t: Tid, runQueue: seq<seq<Tid>>, waits: Waits) {
      Nowhere(ListsIn(queue.Keys, runQueue, waits), t)
    }

    method AppendRun(p: nat, t: Tid, ghost runQueue: seq<seq<Tid>>, ghost waits: Waits)
      requires Hold(runQueue, waits) && p < |runQueue| && Run(p) in queue && t in node && Unqueued(t, runQueue, waits)
      modifies nodes, queues
      ensures Hold(runQueue[p := runQueue[p] + [t]], waits)
    {
      RunList(queue.Keys, runQueue, waits, p, runQueue[p] + [t]);
      Append(Run(p), t, ListsIn(queue.Keys, runQueue, waits));
    }

    method TakeFirstRun(p: nat, ghost runQueue: seq<seq<Tid>>, ghost waits: Waits) returns (t: Tid, empty: bool)
      requires Hold(runQueue, waits) && p < |runQueue| && Run(p) in queue && runQueue[p] != []
      modifies nodes, queues
      ensures t == runQueue[p][0] && (empty <==> runQueue[p][1..] == [])
      ensures Hold(runQueue[p := runQueue[p][1..]], waits)
    {
      ghost var lists := ListsIn(queue.Keys, runQueue, waits);
      RunList(queue.Keys, runQueue, waits, p, runQueue[p][1..]);
      t := First(Run(p), lists);
      assert runQueue[p][..0] + runQueue[p][1..] == runQueue[p][1..];
      Remove(Run(p), t, 0, lists);
      empty := Empty(Run(p), lists[Run(p) := runQueue[p][1..]]);
    }

    method AppendWait(q: Qid, t: Tid, ghost runQueue: seq<seq<Tid>>, ghost waits: Waits, ghost w: WaitQueue)
      requires Hold(runQueue, waits) && Wait(q) in queue && t in node && Unqueued(t, runQueue, waits)
      requires w.list == QueueIn(waits, q).list + [t]
      modifies nodes, queues
      ensures Hold(runQueue, waits[q := w])
    {
      WaitList(queue.Keys, runQueue, waits, q, w);
      Append(Wait(q), t, ListsIn(queue.Keys, runQueue, waits));
    }

    method RemoveWait(q: Qid, t: Tid, ghost i: nat, ghost runQueue: seq<seq<Tid>>, ghost waits: Waits,
                      ghost w: WaitQueue)
      requires Hold(runQueue, waits) && Wait(q) in queue && i < |QueueIn(waits, q).list|
      requires QueueIn(waits, q).list[i] == t
      requires w.list == QueueIn(waits, q).list[..i] + QueueIn(waits, q).list[i + 1..]
      modifies nodes, queues
      ensures Hold(runQueue, waits[q := w]) && Unqueued(t, runQueue, waits[q := w])
    {
      ghost var lists := ListsIn(queue.Keys, runQueue, waits);
      WaitList(queue.Keys, runQueue, waits, q, w);
      Leaves(lists, Wait(q), i);
      Remove(Wait(q), t, i, lists);
    }

    method FirstWaiting(q: Qid, ghost runQueue: seq<seq<Tid>>, ghost waits: Waits) returns (t: Option<Tid>)
      requires Hold(runQueue, waits) && Wait(q) in queue
      ensures t == if QueueIn(waits, q).list == [] then None else Some(QueueIn(waits, q).list[0])
    {
      ghost var lists := ListsIn(queue.Keys, runQueue, waits);
      WaitList(queue.Keys, runQueue, waits, q, WaitQueue([], 0));
      var empty := Empty(Wait(q), lists);
      if empty { return None; }
      var first := First(Wait(q), lists);
      t := Some(first);
    }

    method ResetThread(t: Tid, ghost runQueue: seq<seq<Tid>>, ghost waits: Waits)
      requires Hold(runQueue, waits) && t in node && Unqueued(t, runQueue, waits)
      requires Wait(ExitOf(t)) in queue && QueueIn(waits, ExitOf(t)).list == []
      modifies nodes
      ensures Hold(runQueue, waits[ExitOf(t) := WaitQueue([], 0)])
    {
      ghost var lists := ListsIn(queue.Keys, runQueue, waits);
      WaitList(queue.Keys, runQueue, waits, ExitOf(t), WaitQueue([], 0));
      assert lists[Wait(ExitOf(t)) := []] == lists;
      Reset(t, Wait(ExitOf(t)), lists);
    }
  }

  /** The ring of `o` has nothing in common with that of `q`, nor with `n`. */
  ghost predicate Away(o: NodeQueue, q: NodeQueue, n: ListNode)
    reads o, q
  {
    && o != q && o.head != q.head && o.head !in q.nodes && o.head != n
    && forall x <- o.nodes :: x != q.head && x !in q.nodes && x != n
  }

  /** Insertion into one ring leaves the others, and nodes that are in no ring, alone. */
  method AppendBeside(q: NodeQueue, n: ListNode, ghost others: set<NodeQueue>, ghost idle: set<ListNode>)
    requires q.Valid() && Cleared(n) && forall o <- others :: o.Valid() && Away(o, q, n)
    requires forall x <- idle :: Cleared(x) && x != q.head && x !in q.nodes && x != n
    modifies q, q.head, q.nodes, n
    ensures q.Valid() && q.nodes == old(q.nodes) + [n]
    ensures forall o <- others :: o.Valid() && o.nodes == old(o.nodes)
    ensures forall x <- idle :: Cleared(x)
  {
    q.Append(n);
    forall o <- others ensures o.Valid() { QueueStays(o); }
  }

  /** And so does removal. */
  method RemoveBeside(q: NodeQueue, n: ListNode, ghost i: nat, ghost others: set<NodeQueue>, ghost idle: set<ListNode>)
    requires q.Valid() && i < |q.nodes| && q.nodes[i] == n && forall o <- others :: o.Valid() && Away(o, q, n)
    requires forall x <- idle :: Cleared(x) && x != q.head && x !in q.nodes
    modifies q, q.head, q.nodes
    ensures q.Valid() && q.nodes == old(q.nodes)[..i] + old(q.nodes)[i + 1..] && Cleared(n)
    ensures forall o <- others :: o.Valid() && o.nodes == old(o.nodes)
    ensures forall x <- idle :: Cleared(x)
  {
    q.Remove(n, i);
    forall o <- others ensures o.Valid() { QueueStays(o); }
  }

  method ResetCells(n: ListNode, head: ListNode)
    requires Cleared(n) && Ring([head]) && n != head
    modifies n, head
    ensures SameLinks(n) && SameLinks(head)
  {
    assert [head][0].next == [head][Succ(0, 1)] && [head][0].prev == [head][Pred(0, 1)];
    n.prev, n.next := null, null;
    Initialize(head);
    assert [head][0].next == [head][Succ(0, 1)] && [head][0].prev == [head][Pred(0, 1)];
  }

  lemma AppendedLists(lists: Lists, c: Place, t: Tid)
    requires OnePlace(lists) && c in lists && Nowhere(lists, t)
    ensures var lists' := lists[c := lists[c] + [t]];
      OnePlace(lists') && forall u :: Nowhere(lists', u) <==> Nowhere(lists, u) && u != t
  {
    var lists' := lists[c := lists[c] + [t]];
    assert forall u :: u in lists'[c] <==> u in lists[c] || u == t;
    forall u ensures Nowhere(lists', u) <==> Nowhere(lists, u) && u != t {
      assert Nowhere(lists', u) ==> u !in lists'[c] && forall d <- lists :: d != c ==> u !in lists'[d];
    }
  }

  lemma RemovedLists(lists: Lists, c: Place, i: nat)
    requires OnePlace(lists) && c in lists && i < |lists[c]|
    requires forall j, k :: 0 <= j < k < |lists[c]| ==> lists[c][j] != lists[c][k]
    ensures var lists' := lists[c := lists[c][..i] + lists[c][i + 1..]];
      OnePlace(lists') && forall u :: Nowhere(lists', u) <==> Nowhere(lists, u) || u == lists[c][i]
  {
    var list, list' := lists[c], lists[c][..i] + lists[c][i + 1..];
    var lists' := lists[c := list'];
    forall u ensures u in list' <==> u in list && u != list[i] {
      if u in list && u != list[i] {
        var k :| 0 <= k < |list| && list[k] == u;
        assert list'[if k < i then k else k - 1] == u;
      }
    }
    forall u ensures Nowhere(lists', u) <==> Nowhere(lists, u) || u == list[i] {
      assert Nowhere(lists', u) ==> u !in lists'[c] && forall d <- lists :: d != c ==> u !in lists'[d];
      assert u == list[i] ==> forall d <- lists :: u in lists[d] ==> d == c;
    }
  }

  // ---------------------------------------------------------------- the rings at the start

  method NewNodes(slots: nat) returns (node: map<Tid, ListNode>)
    ensures forall t: Tid :: t in node <==> t < slots
    ensures forall t <- node :: fresh(node[t]) && Cleared(node[t])
    ensures forall t, u :: t in node && u in node && node[t] == node[u] ==> t == u
  {
    node := map[];
    for i := 0 to slots
      invariant forall t: Tid :: t in node <==> t < i
      invariant forall t <- node :: fresh(node[t]) && Cleared(node[t])
      invariant forall t, u :: t in node && u in node && node[t] == node[u] ==> t == u
    {
      var n := new ListNode();
      node := node[i := n];
    }
  }

  /** The run queues, the exit queues of all slots, and the other wait queues. */
  function AllPlaces(slots: nat, others: nat): seq<Place> {
    seq(NUM_PRIORITY, (p: nat) => Run(p)) + seq(slots, (t: nat) => Wait(ExitOf(t))) +
      seq(others, (n: nat) => Wait(Other(n)))
  }

  lemma PlacesKnown(slots: nat, others: nat)
    ensures forall p :: 0 <= p < NUM_PRIORITY ==> Run(p) in AllPlaces(slots, others)
    ensures forall t :: 0 <= t < slots ==> Wait(ExitOf(t)) in AllPlaces(slots, others)
    ensures forall n :: 0 <= n < others ==> Wait(Other(n)) in AllPlaces(slots, others)
  {
    var all := AllPlaces(slots, others);
    forall p | 0 <= p < NUM_PRIORITY ensures Run(p) in all { assert all[p] == Run(p); }
    forall t | 0 <= t < slots ensures Wait(ExitOf(t)) in all { assert all[NUM_PRIORITY + t] == Wait(ExitOf(t)); }
    forall n | 0 <= n < others ensures Wait(Other(n)) in all { assert all[NUM_PRIORITY + slots + n] == Wait(Other(n)); }
  }

  method NewQueues(places: seq<Place>) returns (queue: map<Place, NodeQueue>)
    ensures forall c :: c in queue <==> c in places
    ensures forall c <- queue :: fresh(queue[c]) && fresh(queue[c].head) && queue[c].Valid() && queue[c].nodes == []
    ensures forall c, d :: c in queue && d in queue && (queue[c] == queue[d] || queue[c].head == queue[d].head) ==>
              c == d
  {
    queue := map[];
    for i := 0 to |places|
      invariant forall c :: c in queue <==> c in places[..i]
      invariant forall c <- queue :: fresh(queue[c]) && fresh(queue[c].head) && queue[c].Valid() && queue[c].nodes == []
      invariant forall c, d :: c in queue && d in queue && (queue[c] == queue[d] || queue[c].head == queue[d].head) ==>
                c == d
    {
      var q := new NodeQueue();
      queue := queue[places[i] := q];
      assert places[..i + 1] == places[..i] + [places[i]];
    }
    assert places[..|places|] == places;
  }

  method NewRings(slots: nat, others: nat) returns (rings: ThreadRings)
    ensures fresh(rings) && fresh(rings.nodes) && fresh(rings.queues)
    ensures rings.Valid(map c | c in rings.queue :: [])
    ensures forall t: Tid :: t in rings.node <==> t < slots
    ensures forall c :: c in rings.queue <==> c in AllPlaces(slots, others)
  {
    var node := NewNodes(slots);
    var queue := NewQueues(AllPlaces(slots, others));
    rings := new ThreadRings(node, queue, AllPlaces(slots, others));
    rings.StartsWhole();
  }

  // ---------------------------------------------------------------- where a thread's node is

  ghost function ListsIn(places: set<Place>, runQueue: seq<seq<Tid>>, waits: Waits): Lists {
    map c | c in places :: ListAt(runQueue, waits, c)
  }

  function ListAt(runQueue: seq<seq<Tid>>, waits: Waits, c: Place): seq<Tid> {
    match c
    case Run(p) => if p < |runQueue| then runQueue[p] else []
    case Wait(q) => QueueIn(waits, q).list
  }

  /** A ready thread's node is in the run queue of its priority, a blocked one's in the wait queue it is
      blocked on, any other's in none; the idle thread is not queued. */
  function PlaceOf(s: State, t: Tid): Option<Place> {
    if t !in s.threads then None
    else
      var th := s.threads[t];
      if th.phase == Ready && !th.idle then Some(Run(th.priority))
      else if th.phase == Blocked && th.blockedOn.Some? then Some(Wait(th.blockedOn.value))
      else None
  }

  lemma ListedInPlace(s: State, t: Tid, c: Place)
    requires ReadyOk(s) && WaitOk(s)
    ensures t in ListAt(s.runQueue, s.waits, c) <==> PlaceOf(s, t) == Some(c)
  {
    match c
    case Run(p) => assert p < NUM_PRIORITY && t in s.runQueue[p] ==>
      Has(s.threads, t, Ready) && s.threads[t].priority == p;
    case Wait(q) => ListedIsBlocked(s, q, t);
  }

  /** A thread that is neither ready nor blocked is in no queue. */
  lemma InNoQueue(s: State, places: set<Place>, t: Tid)
    requires ReadyOk(s) && WaitOk(s) && PlaceOf(s, t) == None
    ensures Nowhere(ListsIn(places, s.runQueue, s.waits), t)
  {
    forall c <- places ensures t !in ListAt(s.runQueue, s.waits, c) { ListedInPlace(s, t, c); }
  }

  lemma RunList(places: set<Place>, runQueue: seq<seq<Tid>>, waits: Waits, p: nat, list: seq<Tid>)
    requires p < |runQueue| && Run(p) in places
    ensures var lists := ListsIn(places, runQueue, waits);
      lists[Run(p)] == runQueue[p] && ListsIn(places, runQueue[p := list], waits) == lists[Run(p) := list]
  {
  }

  lemma WaitList(places: set<Place>, runQueue: seq<seq<Tid>>, waits: Waits, q: Qid, w: WaitQueue)
    requires Wait(q) in places
    ensures var lists := ListsIn(places, runQueue, waits);
      lists[Wait(q)] == QueueIn(waits, q).list && ListsIn(places, runQueue, waits[q := w]) == lists[Wait(q) := w.list]
  {
  }
}
