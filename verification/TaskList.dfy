/** Task lists: cyclic doubly linked lists through a sentinel, rewired in place. */
module TaskList {

  class ListNode {
    const slot: nat
    var next: ListNode
    var prev: ListNode

    /** A node on no list points to itself. It is a member of the task in the slot; sentinels are of none. */
    constructor (slot: nat)
      ensures next == this && prev == this && this.slot == slot
    {
      this.slot, next, prev := slot, this, this;
    }
  }

  predicate Linked(c: seq<ListNode>, i: nat)
    requires i < |c|
    reads c
  {
    var j := if i + 1 < |c| then i + 1 else 0;
    c[i].next == c[j] && c[j].prev == c[i]
  }

  /** The nodes of c, in order and all different, form a cycle; c[0] is the sentinel. */
  ghost predicate Ring(c: seq<ListNode>)
    reads c
  {
    && c != []
    && (forall i, j :: 0 <= i < j < |c| ==> c[i] != c[j])
    && (forall i: nat :: i < |c| ==> Linked(c, i))
  }

  function Without(c: seq<ListNode>, i: nat): (r: seq<ListNode>)
    requires i < |c|
    ensures |r| == |c| - 1
  {
    c[..i] + c[i + 1..]
  }

  function With(c: seq<ListNode>, j: nat, n: ListNode): seq<ListNode>
    requires j < |c|
  {
    c[..j + 1] + [n] + c[j + 1..]
  }

  function After(c: seq<ListNode>, i: nat): ListNode
    requires i < |c|
  {
    if i + 1 < |c| then c[i + 1] else c[0]
  }

  // ----- move_task_to_list_unsafe

  /** The first two writes: the neighbours of c[i] point to each other. */
  method Unlink(n: ListNode, ghost c: seq<ListNode>, ghost i: nat)
    requires Ring(c) && i < |c| && c[i] == n && (i >= 1 || c == [n])
    modifies n.next`prev, n.prev`next
    ensures i >= 1 ==> Ring(Without(c, i))
    ensures n.next == old(n.next) && n.prev == old(n.prev)
  {
    assert Linked(c, i) && (i >= 1 ==> Linked(c, i - 1));
    n.next.prev := n.prev;
    n.prev.next := n.next;
    if i >= 1 {
      ghost var d := Without(c, i);
      forall k: nat | k < |d| ensures Linked(d, k) {
        assert old(Linked(c, if k < i then k else k + 1));
        assert old(Linked(c, i)) && old(Linked(c, i - 1));
      }
    }
  }

  /** The other four writes: n goes between c[j] and the node after it. */
  method Link(n: ListNode, newPrev: ListNode, newNext: ListNode, ghost c: seq<ListNode>, ghost j: nat)
    modifies n, newPrev`next, newNext`prev
    ensures n !in c && j < |c| && old(Ring(c)) && newPrev == c[j] && newNext == After(c, j) ==> Ring(With(c, j, n))
    ensures n.next == newNext && newNext.prev == n
    ensures (newPrev != n ==> newPrev.next == n) && (newNext != n ==> n.prev == newPrev)
  {
    n.prev := newPrev;
    newPrev.next := n;
    n.next := newNext;
    newNext.prev := n;
    if n !in c && j < |c| && old(Ring(c)) && newPrev == c[j] && newNext == After(c, j) {
      ghost var d := With(c, j, n);
      forall k: nat | k < |d| ensures Linked(d, k) {
        if k != j && k != j + 1 { assert old(Linked(c, if k < j then k else k - 1)); }
      }
    }
  }

  /** Position of what was c[j] once c[i] is gone. */
  function Shifted(i: nat, j: nat): nat
    requires i != j
  {
    if j < i then j else j - 1
  }

  ghost predicate Apart(a: seq<ListNode>, b: seq<ListNode>) {
    forall n :: n in a ==> n !in b
  }

  /** Take n = from[i] out of its list and put it between newPrev = to[j] and the node after it, which is on the same
      list or another; newNext is read before n is taken out. Both lists stay cycles unless n is asked to be next to
      itself; then no cycle goes through newPrev any more. */
  method MoveTaskToList(n: ListNode, newPrev: ListNode, newNext: ListNode, ghost from: seq<ListNode>, ghost i: nat,
                        ghost to: seq<ListNode>, ghost j: nat)
    requires Ring(from) && i < |from| && from[i] == n && (i >= 1 || from == [n])
    requires Ring(to) && j < |to| && to[j] == newPrev && After(to, j) == newNext
    requires from == to || Apart(from, to)
    modifies n, n.next`prev, n.prev`next, newPrev`next, newNext`prev
    ensures n != newPrev && n != newNext && from != to ==> Ring(With(to, j, n)) && (i >= 1 ==> Ring(Without(from, i)))
    ensures n != newPrev && n != newNext && from == to ==> Ring(With(Without(from, i), Shifted(i, j), n))
    ensures (n == newPrev || n == newNext) && i >= 1 ==>
              from == to && forall d: seq<ListNode> :: newPrev in d ==> !Ring(d)
    ensures n == newNext && n != newPrev ==> newPrev.next == n && n.next == n
  {
    hide Ring;
    Neighbours(from, i);
    Unlink(n, from, i);
    ghost var good := n != newPrev && n != newNext;
    if good {
      RestOf(from, i, to, j, n);
    }
    ghost var rest := if from == to then Without(to, i) else to;
    ghost var at := if from == to && good then Shifted(i, j) else j;
    Link(n, newPrev, newNext, rest, at);
    if !good && i >= 1 {
      forall d: seq<ListNode> | newPrev in d ensures !Ring(d) {
        if Ring(d) { Stuck(d, n, newPrev); }
      }
    }
  }

  lemma Neighbours(c: seq<ListNode>, i: nat)
    requires Ring(c) && i < |c|
    ensures c[i].next == After(c, i) && c[i].prev in c && c[i].next in c
    ensures i >= 1 ==> c[i] != After(c, i)
    ensures forall k: nat :: k < |c| && k != i ==> c[k] != c[i]
  {
    assert Linked(c, i);
    if i >= 1 { assert Linked(c, i - 1); } else { assert Linked(c, |c| - 1); }
  }

  /** The place for n, once it is gone. */
  lemma RestOf(from: seq<ListNode>, i: nat, to: seq<ListNode>, j: nat, n: ListNode)
    requires i < |from| && j < |to| && from[i] == n && (from == to || Apart(from, to))
    requires forall k: nat :: k < |from| && k != i ==> from[k] != n
    requires n != to[j] && n != After(to, j) && (i >= 1 || from == [n])
    ensures from == to ==>
              var c := Without(from, i);
              && n !in c && i != j && Shifted(i, j) < |c| && c[Shifted(i, j)] == to[j]
              && After(c, Shifted(i, j)) == After(to, j)
    ensures from != to ==>
            n !in to && n !in Without(from, i) && to[j] !in Without(from, i) && After(to, j) !in Without(from, i)
  {
    assert n !in from[..i] && n !in from[i + 1..];
    assert forall m :: m in Without(from, i) ==> m in from;
    assert to[j] in to && After(to, j) in to;
  }

  /** A node that points to itself on one side only is on no cycle, nor is one that leads to it. */
  lemma Stuck(d: seq<ListNode>, n: ListNode, p: ListNode)
    requires p in d && Ring(d)
    ensures !(p.next == n && n.next == n && p != n) && !(p.prev == p && p.next != p)
  {
    var i: nat :| i < |d| && d[i] == p;
    assert Linked(d, i);
    var k := if i + 1 < |d| then i + 1 else 0;
    assert Linked(d, k);
    if i >= 1 { assert Linked(d, i - 1); } else { assert Linked(d, |d| - 1); }
  }

  twostate lemma StillRing(c: seq<ListNode>)
    requires old(Ring(c)) && forall i :: 0 <= i < |c| ==> c[i].next == old(c[i].next) && c[i].prev == old(c[i].prev)
    ensures Ring(c)
  {
    forall i: nat | i < |c| ensures Linked(c, i) { assert old(Linked(c, i)); }
  }

  /** move_task_after_node_unsafe: the next node is the one now behind node, so a node that is there already is asked to
      be next to itself. */
  method MoveTaskAfterNode(n: ListNode, node: ListNode, ghost from: seq<ListNode>, ghost i: nat,
                           ghost to: seq<ListNode>, ghost j: nat)
    requires Ring(from) && i < |from| && from[i] == n && (i >= 1 || from == [n])
    requires Ring(to) && j < |to| && to[j] == node && (from == to || Apart(from, to))
    modifies n, n.next`prev, n.prev`next, node`next, node.next`prev
    ensures n != node && n != After(to, j) && from != to ==> Ring(With(to, j, n)) && (i >= 1 ==> Ring(Without(from, i)))
    ensures n != node && n != After(to, j) && from == to ==> Ring(With(Without(from, i), Shifted(i, j), n))
    ensures (n == node || n == After(to, j)) && i >= 1 ==>
              from == to && forall d: seq<ListNode> :: node in d ==> !Ring(d)
    ensures n == After(to, j) && n != node ==> node.next == n && n.next == n
  {
    Neighbours(from, i);
    Neighbours(to, j);
    MoveTaskToList(n, node, node.next, from, i, to, j);
  }
}
