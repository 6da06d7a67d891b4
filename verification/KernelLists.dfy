/** The run queue and the three wait lists of the kernel over one set of nodes, one for each task slot. */
module KernelLists {
  import opened Common
  import opened TaskList
  import opened Kernel

  const RUN := 0
  const RTC := 1
  const READER := 2
  const CHILD := 3
  const LISTS := 4

  predicate InSlots(s: seq<nat>) {
    forall i :: 0 <= i < |s| ==> s[i] < TASK_MAX_COUNT
  }

  /** The nodes of list s behind its sentinel. */
  function Nodes(nodes: seq<ListNode>, head: ListNode, s: seq<nat>): (c: seq<ListNode>)
    requires |nodes| == TASK_MAX_COUNT && InSlots(s)
    ensures |c| == |s| + 1 && c[0] == head && forall i :: 1 <= i < |c| ==> c[i] == nodes[s[i - 1]]
  {
    [head] + seq(|s|, i requires 0 <= i < |s| => nodes[s[i]])
  }

  predicate NoShare(a: seq<nat>, b: seq<nat>) {
    forall t :: t in a ==> t !in b
  }

  /** Each task at most once on all the lists together. */
  ghost predicate Spread(lists: seq<seq<nat>>) {
    && |lists| == LISTS
    && (forall l :: 0 <= l < LISTS ==> InSlots(lists[l]) && Distinct(lists[l]))
    && (forall l, m :: 0 <= l < LISTS && 0 <= m < LISTS && l != m ==> NoShare(lists[l], lists[m]))
  }

  lemma NodeAt(nodes: seq<ListNode>, head: ListNode, s: seq<nat>, k: nat)
    requires |nodes| == TASK_MAX_COUNT && InSlots(s) && k <= |s|
    ensures Nodes(nodes, head, s)[k] == if k == 0 then head else nodes[s[k - 1]]
  {
  }

  lemma WithoutAt(nodes: seq<ListNode>, head: ListNode, s: seq<nat>, i: nat, k: nat)
    requires |nodes| == TASK_MAX_COUNT && InSlots(s) && i < |s| && k < |s| && InSlots(s[..i] + s[i + 1..])
    ensures Nodes(nodes, head, s[..i] + s[i + 1..])[k] == Without(Nodes(nodes, head, s), i + 1)[k]
  {
    hide Nodes;
    var r := s[..i] + s[i + 1..];
    NodeAt(nodes, head, r, k);
    if k <= i {
      NodeAt(nodes, head, s, k);
      if k > 0 { assert r[k - 1] == s[k - 1]; }
    } else {
      NodeAt(nodes, head, s, k + 1);
      assert r[k - 1] == s[k];
    }
  }

  lemma InSlotsWithout(s: seq<nat>, i: nat)
    requires InSlots(s) && i < |s|
    ensures InSlots(s[..i] + s[i + 1..])
  {
    var r := s[..i] + s[i + 1..];
    forall k | 0 <= k < |r| ensures r[k] == if k < i then s[k] else s[k + 1] {}
  }

  lemma NodesWithout(nodes: seq<ListNode>, head: ListNode, s: seq<nat>, i: nat)
    requires |nodes| == TASK_MAX_COUNT && InSlots(s) && i < |s| && Distinct(s)
    ensures InSlots(Remove(s, s[i])) && Nodes(nodes, head, Remove(s, s[i])) == Without(Nodes(nodes, head, s), i + 1)
  {
    hide Remove, Nodes, Without, InSlots;
    RemoveFirst(s, i);
    var c, r := Nodes(nodes, head, s), Remove(s, s[i]);
    InSlotsWithout(s, i);
    var d, e := Without(c, i + 1), Nodes(nodes, head, r);
    forall k | 0 <= k < |e| ensures d[k] == e[k] {
      WithoutAt(nodes, head, s, i, k);
    }
  }

  lemma FrontDistinct(s: seq<nat>, t: nat)
    requires Distinct(s) && t !in s
    ensures Distinct([t] + s)
  {
  }

  lemma NodesWith(nodes: seq<ListNode>, head: ListNode, s: seq<nat>, t: nat)
    requires |nodes| == TASK_MAX_COUNT && InSlots(s) && t < TASK_MAX_COUNT
    ensures InSlots([t] + s) && Nodes(nodes, head, [t] + s) == With(Nodes(nodes, head, s), 0, nodes[t])
  {
    var c, d := With(Nodes(nodes, head, s), 0, nodes[t]), Nodes(nodes, head, [t] + s);
    forall k | 0 <= k < |c| ensures c[k] == d[k] {
      if k >= 2 { assert ([t] + s)[k - 1] == s[k - 2]; }
    }
  }

  lemma NodesWithLast(nodes: seq<ListNode>, head: ListNode, s: seq<nat>, t: nat)
    requires |nodes| == TASK_MAX_COUNT && InSlots(s) && t < TASK_MAX_COUNT
    ensures InSlots(s + [t]) && Nodes(nodes, head, s + [t]) == With(Nodes(nodes, head, s), |s|, nodes[t])
  {
    var c, d := With(Nodes(nodes, head, s), |s|, nodes[t]), Nodes(nodes, head, s + [t]);
    forall k | 0 <= k < |c| ensures c[k] == d[k] {
      if 0 < k <= |s| { assert (s + [t])[k - 1] == s[k - 1]; }
    }
  }

  lemma NodesApart(nodes: seq<ListNode>, heads: seq<ListNode>, s: seq<nat>, l: nat, s': seq<nat>, m: nat)
    requires |nodes| == TASK_MAX_COUNT && |heads| == LISTS && Distinct(heads + nodes) && l < LISTS && m < LISTS
    requires l != m
    requires InSlots(s) && InSlots(s') && NoShare(s, s')
    ensures Apart(Nodes(nodes, heads[l], s), Nodes(nodes, heads[m], s'))
  {
    hide Distinct;
    var a, b := Nodes(nodes, heads[l], s), Nodes(nodes, heads[m], s');
    forall i, j | 0 <= i < |a| && 0 <= j < |b| ensures a[i] != b[j] {
      if i > 0 { assert s[i - 1] in s; }
      if j > 0 { assert s'[j - 1] in s'; }
      Differ(nodes, heads, if i == 0 then l else LISTS + s[i - 1], if j == 0 then m else LISTS + s'[j - 1]);
    }
  }

  lemma Differ(nodes: seq<ListNode>, heads: seq<ListNode>, i: nat, j: nat)
    requires |heads| == LISTS && Distinct(heads + nodes) && i < LISTS + |nodes| && j < LISTS + |nodes| && i != j
    ensures (if i < LISTS then heads[i] else nodes[i - LISTS]) != (if j < LISTS then heads[j] else nodes[j - LISTS])
  {
    var all := heads + nodes;
    assert all[i] != all[j];
  }

  /** t leaves list l for the front of list m. */
  function Moved(lists: seq<seq<nat>>, t: nat, l: nat, m: nat): seq<seq<nat>>
    requires |lists| == LISTS && l < LISTS && m < LISTS
  {
    var left := lists[l := Remove(lists[l], t)];
    left[m := [t] + left[m]]
  }

  lemma EmptySpread()
    ensures Spread([[], [], [], []])
  {
  }

  lemma MovedSpread(lists: seq<seq<nat>>, t: nat, l: nat, m: nat)
    requires Spread(lists) && l < LISTS && m < LISTS && t in lists[l]
    ensures Spread(Moved(lists, t, l, m))
  {
    hide Remove, Distinct;
    RemovedSpread(lists, t, l);
    var left := lists[l := Remove(lists[l], t)];
    FrontDistinct(left[m], t);
  }

  lemma RotatedSpread(lists: seq<seq<nat>>, t: nat, m: nat)
    requires Spread(lists) && m < LISTS && t in lists[m]
    ensures Spread(lists[m := Remove(lists[m], t) + [t]])
  {
    hide Remove, Distinct;
    RemovedSpread(lists, t, m);
    var less := lists[m := Remove(lists[m], t)];
    assert Distinct(less[m]) && InSlots(less[m]) && InSlots(lists[m]);
    BackDistinct(less[m], t);
    var more := lists[m := less[m] + [t]];
    forall l, k | 0 <= l < LISTS && 0 <= k < LISTS && l != k ensures NoShare(more[l], more[k]) {
      assert NoShare(less[l], less[k]);
    }
  }

  lemma AddedSpread(lists: seq<seq<nat>>, t: nat, m: nat)
    requires Spread(lists) && m < LISTS && t < TASK_MAX_COUNT && forall k :: 0 <= k < LISTS ==> t !in lists[k]
    ensures Spread(lists[m := [t] + lists[m]])
  {
    hide Distinct;
    FrontDistinct(lists[m], t);
  }

  lemma BackDistinct(s: seq<nat>, t: nat)
    requires Distinct(s) && t !in s
    ensures Distinct(s + [t])
  {
  }

  lemma RemoveAtLength(s: seq<nat>, i: nat)
    requires i < |s| && Distinct(s)
    ensures |Remove(s, s[i])| == |s| - 1
  {
    hide Remove;
    RemoveFirst(s, i);
  }

  lemma OneRing(n: ListNode)
    requires n.next == n && n.prev == n
    ensures Ring([n])
  {
    assert Linked([n], 0);
  }

  lemma OneAfter(n: ListNode)
    ensures After([n], 0) == n
  {
  }

  lemma NewApart(from: seq<ListNode>, n: ListNode)
    requires n !in from
    ensures Apart(from, [n]) && (from != [] ==> from != [n])
  {
  }

  lemma RemovedSpread(lists: seq<seq<nat>>, t: nat, l: nat)
    requires Spread(lists) && l < LISTS && t in lists[l]
    ensures Spread(lists[l := Remove(lists[l], t)])
    ensures forall k :: 0 <= k < LISTS && k != l ==> t !in lists[k]
    ensures t !in Remove(lists[l], t)
  {
    hide Remove, Distinct;
    RemoveKeeps(lists[l], t);
    assert forall i :: 0 <= i < |Remove(lists[l], t)| ==> Remove(lists[l], t)[i] in lists[l];
  }

  predicate Outside(n: ListNode, from: seq<ListNode>, to: seq<ListNode>) {
    n !in from && n !in to
  }

  /** A list, and two others that none of its nodes is on. */
  datatype Bystander = Bystander(nodes: seq<ListNode>, head: ListNode, s: seq<nat>, from: seq<ListNode>,
                                 to: seq<ListNode>)
  {
    ghost predicate Valid() {
      |nodes| == TASK_MAX_COUNT && InSlots(s) && Spared(Nodes(nodes, head, s), from, to)
    }
  }

  /** A list stays as it is when only others change. */
  twostate lemma Untouched(b: Bystander)
    requires b.Valid() && old(Ring(Nodes(b.nodes, b.head, b.s)))
    requires forall u :: 0 <= u < |b.nodes| && Outside(b.nodes[u], b.from, b.to) ==>
               b.nodes[u].next == old(b.nodes[u].next) && b.nodes[u].prev == old(b.nodes[u].prev)
    requires Outside(b.head, b.from, b.to) ==> b.head.next == old(b.head.next) && b.head.prev == old(b.head.prev)
    ensures Ring(Nodes(b.nodes, b.head, b.s))
  {
    hide Nodes, Ring;
    var c := Nodes(b.nodes, b.head, b.s);
    forall j | 0 <= j < |c| ensures c[j].next == old(c[j].next) && c[j].prev == old(c[j].prev) {
      NodeAt(b.nodes, b.head, b.s, j);
      assert Outside(c[j], b.from, b.to);
    }
    StillRing(c);
  }

  class TaskLists {
    const nodes: seq<ListNode>
    const heads: seq<ListNode>
    ghost var lists: seq<seq<nat>>

    /** A node for each task slot and a sentinel for each list, all pointing to themselves. */
    constructor ()
      ensures Valid() && lists == [[], [], [], []]
      ensures fresh(set n | n in nodes) && fresh(set n | n in heads)
    {
      var all: seq<ListNode> := [];
      while |all| < LISTS + TASK_MAX_COUNT
        invariant |all| <= LISTS + TASK_MAX_COUNT && Distinct(all)
        invariant forall i :: 0 <= i < |all| ==> fresh(all[i]) && all[i].next == all[i] && all[i].prev == all[i]
        invariant forall i :: 0 <= i < |all| && i >= LISTS ==> all[i].slot == i - LISTS
      {
        var n := new ListNode(if |all| < LISTS then TASK_MAX_COUNT else |all| - LISTS);
        all := all + [n];
      }
      heads, nodes, lists := all[..LISTS], all[LISTS..], [[], [], [], []];
      new;
      hide Spread, Distinct;
      assert heads + nodes == all;
      assert forall t :: 0 <= t < TASK_MAX_COUNT ==> nodes[t] == all[LISTS + t];
      EmptySpread();
      forall l | 0 <= l < LISTS ensures Ring(Nodes(nodes, heads[l], lists[l])) {
        assert Nodes(nodes, heads[l], []) == [heads[l]];
        assert heads[l] == all[l];
        OneRing(heads[l]);
      }
    }

    ghost predicate Fixed() {
      && |nodes| == TASK_MAX_COUNT && |heads| == LISTS && Distinct(heads + nodes)
      && forall t :: 0 <= t < TASK_MAX_COUNT ==> nodes[t].slot == t
    }

    ghost predicate Valid()
      reads this, nodes, heads
    {
      Fixed() && Spread(lists) && forall l :: 0 <= l < LISTS ==> Ring(Nodes(nodes, heads[l], lists[l]))
    }

    method Empty(m: nat) returns (b: bool)
      requires Fixed() && m < LISTS
      ensures b == (heads[m].next == heads[m])
      ensures Valid() ==> b == (lists[m] == [])
    {
      b := heads[m].next == heads[m];
      if Valid() { Leads(m); }
    }

    /** Where the pointer of a sentinel leads. */
    lemma Leads(m: nat)
      requires Valid() && m < LISTS
      ensures lists[m] == [] ==> heads[m].next == heads[m]
      ensures lists[m] != [] ==> heads[m].next != heads[m] && heads[m].next.slot == lists[m][0]
    {
      if lists[m] == [] {
        assert Linked(Nodes(nodes, heads[m], lists[m]), 0);
      } else {
        NextAt(m, 0);
      }
    }

    /** Whether t, at the front of list m, is alone there. */
    method Alone(t: nat, m: nat) returns (b: bool)
      requires Valid() && m < LISTS && lists[m] != [] && lists[m][0] == t
      ensures b == (|lists[m]| == 1)
    {
      ghost var c := Nodes(nodes, heads[m], lists[m]);
      NodeAt(nodes, heads[m], lists[m], 1);
      assert Linked(c, 1);
      b := nodes[t].next == heads[m];
    }

    /** Whether t is at the end of list m. */
    method AtEnd(t: nat, m: nat) returns (b: bool)
      requires Valid() && m < LISTS && t < TASK_MAX_COUNT
      ensures b == (lists[m] != [] && lists[m][|lists[m]| - 1] == t)
    {
      ghost var c := Nodes(nodes, heads[m], lists[m]);
      NodeAt(nodes, heads[m], lists[m], |lists[m]|);
      assert Linked(c, |lists[m]|);
      b := heads[m].prev == nodes[t];
      if lists[m] == [] { NodeOther(t, if t == 0 then 1 else 0, m); }
      else if lists[m][|lists[m]| - 1] != t { NodeOther(t, lists[m][|lists[m]| - 1], m); }
    }

    /** Where the pointers of the i-th task of list m, and of the sentinel, lead. */
    lemma NextAt(m: nat, i: nat)
      requires Valid() && m < LISTS && i < |lists[m]|
      ensures var s := lists[m];
              && s[i] < TASK_MAX_COUNT && nodes[s[i]] != heads[m] && nodes[s[i]].slot == s[i]
              && nodes[s[i]].next == (if i + 1 < |s| then nodes[s[i + 1]] else heads[m])
              && heads[m].next == nodes[s[0]]
    {
      ghost var c := Nodes(nodes, heads[m], lists[m]);
      NodeAt(nodes, heads[m], lists[m], i + 1);
      if i + 1 < |lists[m]| { NodeAt(nodes, heads[m], lists[m], i + 2); }
      NodeAt(nodes, heads[m], lists[m], 1);
      assert Linked(c, i + 1) && Linked(c, 0);
      NodeOther(lists[m][i], if lists[m][i] == 0 then 1 else 0, m);
    }

    /** Slot of the node that the sentinel of list m leads to. */
    ghost function FirstSlot(m: nat): nat
      requires Fixed() && m < LISTS
      reads heads
    {
      heads[m].next.slot
    }

    /** Task at the front of list m, if that is not empty. */
    method First(m: nat) returns (t: nat)
      requires Fixed() && m < LISTS
      ensures t == FirstSlot(m)
      ensures Valid() && lists[m] != [] ==> t == lists[m][0]
    {
      t := heads[m].next.slot;
      if Valid() { Leads(m); }
    }

    ghost function RingOf(l: nat): seq<ListNode>
      requires Valid() && l < LISTS
      reads this, nodes, heads
    {
      Nodes(nodes, heads[l], lists[l])
    }

    /** Neighbours of the i-th task of list l and of the sentinel of list m are on those lists, which share no node with
        the others. */
    lemma Around(l: nat, i: nat, m: nat)
      requires Valid() && l < LISTS && m < LISTS && i < |lists[l]|
      ensures InSlots(lists[l]) && InSlots(lists[m])
      ensures var t := lists[l][i]; var n := nodes[t];
              && t < TASK_MAX_COUNT && n == RingOf(l)[i + 1] && n.next in RingOf(l) && n.prev in RingOf(l)
              && n in RingOf(l)
              && heads[m].next == After(RingOf(m), 0) && heads[m].next in RingOf(m) && heads[m].prev in RingOf(m)
              && heads[m] in RingOf(m)
              && ((l == m ==> lists[m][0] != t) ==> n != heads[m] && n != After(RingOf(m), 0))
      ensures l != m ==> Apart(RingOf(l), RingOf(m)) && RingOf(l) != RingOf(m)
      ensures var n := nodes[lists[l][i]]; var from, to := RingOf(l), RingOf(m);
              && !Outside(n, from, to) && !Outside(n.next, from, to) && !Outside(n.prev, from, to)
              && !Outside(heads[m], from, to) && !Outside(heads[m].next, from, to) && !Outside(heads[m].prev, from, to)
      ensures forall x :: x in RingOf(l) ==> x in nodes || x in heads
      ensures forall x :: x in RingOf(m) ==> x in nodes || x in heads
      ensures forall k :: 0 <= k < LISTS && k != l ==> Apart(RingOf(l), RingOf(k))
      ensures forall k :: 0 <= k < LISTS && k != m ==> Apart(RingOf(m), RingOf(k))
    {
      hide Ring, Distinct;
      var t := lists[l][i];
      assert nodes[t] == RingOf(l)[i + 1] && t in lists[l] && (l == m ==> lists[m][0] in lists[m]);
      NodesIn(l);
      NodesIn(m);
      Neighbours(RingOf(l), i + 1);
      Neighbours(RingOf(m), 0);
      forall k | 0 <= k < LISTS && k != l ensures Apart(RingOf(l), RingOf(k)) {
        NodesApart(nodes, heads, lists[l], l, lists[k], k);
      }
      forall k | 0 <= k < LISTS && k != m ensures Apart(RingOf(m), RingOf(k)) {
        NodesApart(nodes, heads, lists[m], m, lists[k], k);
      }
      if l == m && lists[m][0] != t { NodeOther(t, lists[m][0], m); }
    }

    lemma NodesIn(l: nat)
      requires Valid() && l < LISTS
      ensures forall x :: x in RingOf(l) ==> x in nodes || x in heads
    {
      hide Ring, Distinct;
      forall i | 0 <= i < |RingOf(l)| ensures RingOf(l)[i] in nodes || RingOf(l)[i] in heads {
        if i > 0 { assert lists[l][i - 1] in lists[l]; }
      }
    }

    lemma NodeOther(t: nat, u: nat, m: nat)
      requires Fixed() && t < TASK_MAX_COUNT && u < TASK_MAX_COUNT && m < LISTS && t != u
      ensures nodes[t] != nodes[u] && nodes[t] != heads[m]
    {
      var all := heads + nodes;
      assert all[LISTS + t] == nodes[t] && all[LISTS + u] == nodes[u] && all[m] == heads[m];
    }

    ghost predicate InFront(t: nat, m: nat)
      reads this
    {
      m < |lists| && lists[m] != [] && lists[m][0] == t
    }

    /** The sentinel of list m leads to t and t to itself; the other lists are whole. */
    ghost predicate Severed(m: nat, t: nat)
      reads this, nodes, heads
    {
      && Fixed() && Spread(lists) && m < LISTS && t < TASK_MAX_COUNT
      && heads[m].next == nodes[t] && nodes[t].next == nodes[t]
      && forall k :: 0 <= k < LISTS && k != m ==> Ring(Nodes(nodes, heads[k], lists[k]))
    }

    /** Then no cycle goes through that sentinel. */
    lemma NoWayBack(m: nat, t: nat, d: seq<ListNode>)
      requires Severed(m, t) && heads[m] in d
      ensures !Ring(d)
    {
      hide Ring;
      if Ring(d) {
        NodeOther(t, if t == 0 then 1 else 0, m);
        Stuck(d, nodes[t], heads[m]);
      }
    }

    /** The first task of list m is behind its sentinel, and on no other list. */
    lemma FrontIs(t: nat, l: nat, m: nat)
      requires Valid() && l < LISTS && m < LISTS && t in lists[l] && InFront(t, m)
      ensures l == m && t < TASK_MAX_COUNT && nodes[t] == After(RingOf(m), 0) && nodes[t] != heads[m]
    {
      assert t in lists[m];
      NodeAt(nodes, heads[m], lists[m], 1);
      NodeOther(t, if t == 0 then 1 else 0, m);
    }

    lemma NotInFront(t: nat, l: nat, m: nat)
      requires Valid() && l < LISTS && m < LISTS && t in lists[l] && l != m
      ensures !InFront(t, m)
    {
      if InFront(t, m) { FrontIs(t, l, m); }
    }

    /** Move t, which is on list l, to the front of list m. A task that is there already is moved next to itself, and
        list m is lost. */
    method MoveToFront(t: nat, ghost l: nat, m: nat)
      requires Valid() && l < LISTS && m < LISTS && t in lists[l] && t < TASK_MAX_COUNT
      modifies this`lists, nodes, heads
      ensures !old(InFront(t, m)) ==> Valid() && lists == Moved(old(lists), t, l, m)
      ensures old(InFront(t, m)) ==> Severed(m, t) && lists == old(lists)
    {
      hide Ring, Remove, Spread, Nodes, With, Without, After, Moved, Apart, Distinct, InSlots;
      ghost var before := lists;
      SpreadAll(before);
      ghost var i: nat :| i < |before[l]| && before[l][i] == t;
      Around(l, i, m);
      ghost var from, to := RingOf(l), RingOf(m);
      RingsApart(l, m);
      ghost var new' := before;
      ghost var front := InFront(t, m);
      if front {
        FrontIs(t, l, m);
      } else {
        new' := Moved(before, t, l, m);
        MovedSpread(before, t, l, m);
        MovedLists(before, t, l, m);
        NodesWithout(nodes, heads[l], before[l], i);
        NodesWith(nodes, heads[m], if l == m then Remove(before[l], t) else before[m], t);
      }
      SpreadAll(new');
      MoveTaskAfterNode(nodes[t], heads[m], from, i + 1, to, 0);
      lists := new';
      forall k | 0 <= k < LISTS && (front ==> k != m) ensures Ring(Nodes(nodes, heads[k], new'[k])) {
        if k != l && k != m { Untouched(Bystander(nodes, heads[k], before[k], from, to)); }
      }
    }

    /** Move t from inside list m to its end. */
    method MoveToLast(t: nat, m: nat)
      requires Valid() && m < LISTS && t in lists[m] && t < TASK_MAX_COUNT && lists[m][|lists[m]| - 1] != t
      modifies this`lists, nodes, heads
      ensures Valid() && lists == old(lists)[m := Remove(old(lists)[m], t) + [t]]
    {
      hide Ring, Remove, Spread, Nodes, With, Without, Apart, Distinct, InSlots;
      ghost var before := lists;
      SpreadAll(before);
      ghost var s := before[m];
      ghost var i: nat :| i < |s| && s[i] == t;
      Around(m, i, m);
      ghost var c := RingOf(m);
      RingsApart(m, m);
      LastNode(m, t);
      RotatedSpread(before, t, m);
      ghost var new' := before[m := Remove(s, t) + [t]];
      SpreadAll(new');
      NodesWithout(nodes, heads[m], s, i);
      NodesWithLast(nodes, heads[m], Remove(s, t), t);
      RemoveAtLength(s, i);
      MoveTaskAfterNode(nodes[t], heads[m].prev, c, i + 1, c, |s|);
      lists := new';
      forall k | 0 <= k < LISTS ensures Ring(Nodes(nodes, heads[k], new'[k])) {
        if k != m { Untouched(Bystander(nodes, heads[k], before[k], c, c)); }
      }
    }

    lemma LastNode(m: nat, t: nat)
      requires Valid() && m < LISTS && t < TASK_MAX_COUNT && lists[m] != [] && lists[m][|lists[m]| - 1] != t
      ensures var c := RingOf(m); var s := lists[m];
              && |c| == |s| + 1 && heads[m].prev == c[|s|] && heads[m] == After(c, |s|) && nodes[t] != c[|s|]
              && nodes[t] != heads[m]
              && c[|s|].next == heads[m] && c[|s|] in c && heads[m] in c
    {
      var c, s := RingOf(m), lists[m];
      assert Linked(c, |s|);
      NodeOther(t, s[|s| - 1], m);
    }

    /** Take t off list l: it moves to a list of its own, which is then forgotten. */
    method Detach(t: nat, ghost l: nat)
      requires Valid() && l < LISTS && t in lists[l] && t < TASK_MAX_COUNT
      modifies this`lists, nodes, heads
      ensures Valid() && lists == old(lists)[l := Remove(old(lists)[l], t)]
    {
      hide Ring, Remove, Spread, Nodes, With, Without, After, Apart, Distinct, InSlots;
      ghost var before := lists;
      SpreadAll(before);
      ghost var i: nat :| i < |before[l]| && before[l][i] == t;
      ghost var from := RingOf(l);
      RingsApart(l, l);
      RemovedSpread(before, t, l);
      ghost var new' := before[l := Remove(before[l], t)];
      SpreadAll(new');
      NodesWithout(nodes, heads[l], before[l], i);
      NodesIn(l);
      var temp := new ListNode(TASK_MAX_COUNT);
      OneRing(temp);
      assert temp !in nodes && temp !in heads;
      assert temp !in from;
      NewApart(from, temp);
      assert After([temp], 0) == temp by { OneAfter(temp); }
      assert Valid() && from == RingOf(l);
      Around(l, i, l);
      MoveTaskAfterNode(nodes[t], temp, from, i + 1, [temp], 0);
      lists := new';
      forall k | 0 <= k < LISTS ensures Ring(Nodes(nodes, heads[k], new'[k])) {
        if k != l { Untouched(Bystander(nodes, heads[k], before[k], from, from)); }
      }
    }

    /** Put t, which is on no list, at the front of list m: its node is made to point to itself first. */
    method Attach(t: nat, m: nat)
      requires Valid() && m < LISTS && t < TASK_MAX_COUNT && forall k :: 0 <= k < LISTS ==> t !in lists[k]
      modifies this`lists, nodes, heads
      ensures Valid() && lists == old(lists)[m := [t] + old(lists)[m]]
    {
      hide Ring, Remove, Spread, Nodes, With, Without, After, Apart, Distinct, InSlots;
      ghost var before := lists;
      SpreadAll(before);
      var n := nodes[t];
      ghost var to := RingOf(m);
      RingsApart(m, m);
      NotThere(t, m);
      AddedSpread(before, t, m);
      ghost var new' := before[m := [t] + before[m]];
      SpreadAll(new');
      NodesWith(nodes, heads[m], before[m], t);
      n.prev, n.next := n, n;
      OneRing(n);
      assert Ring(to) by { Untouched(Bystander(nodes, heads[m], before[m], [n], [n])); }
      MoveTaskAfterNode(n, heads[m], [n], 0, to, 0);
      lists := new';
      forall k | 0 <= k < LISTS ensures Ring(Nodes(nodes, heads[k], new'[k])) {
        if k != m { Untouched(Bystander(nodes, heads[k], before[k], [n], to)); }
      }
    }

    /** The node of a task on no list. */
    lemma NotThere(t: nat, m: nat)
      requires Valid() && m < LISTS && t < TASK_MAX_COUNT && forall k :: 0 <= k < LISTS ==> t !in lists[k]
      ensures |lists| == LISTS && forall k :: 0 <= k < LISTS ==> InSlots(lists[k])
      ensures var n := nodes[t]; var to := RingOf(m);
              && n !in to && Apart([n], to) && Spared(to, [n], [n]) && n != heads[m] && n != After(to, 0)
              && heads[m].next == After(to, 0) && After(to, 0) in to && heads[m] in to && to[0] == heads[m]
              && (forall x :: x in to ==> x in nodes || x in heads)
              && forall k :: 0 <= k < LISTS && k != m ==> Spared(Nodes(nodes, heads[k], lists[k]), [n], to)
    {
      hide Ring, Distinct;
      var n := nodes[t];
      NodesIn(m);
      Neighbours(RingOf(m), 0);
      RingsApart(m, m);
      forall k: nat | k < LISTS ensures n !in Nodes(nodes, heads[k], lists[k]) { NotIn(t, k); }
      forall k | 0 <= k < LISTS && k != m ensures Spared(Nodes(nodes, heads[k], lists[k]), [n], RingOf(m)) {
        assert Spared(Nodes(nodes, heads[k], lists[k]), RingOf(m), RingOf(m));
      }
    }

    lemma NotIn(t: nat, k: nat)
      requires Valid() && k < LISTS && t < TASK_MAX_COUNT && t !in lists[k]
      ensures nodes[t] !in Nodes(nodes, heads[k], lists[k])
    {
      hide Ring, Distinct, Nodes;
      var c := Nodes(nodes, heads[k], lists[k]);
      forall j | 0 <= j < |c| ensures c[j] != nodes[t] {
        NodeAt(nodes, heads[k], lists[k], j);
        if j > 0 {
          assert lists[k][j - 1] in lists[k];
          NodeOther(t, lists[k][j - 1], k);
        } else {
          NodeOther(t, if t == 0 then 1 else 0, k);
        }
      }
    }

    /** The rings of the other lists. */
    lemma RingsApart(l: nat, m: nat)
      requires Valid() && l < LISTS && m < LISTS
      ensures |lists| == LISTS && forall k :: 0 <= k < LISTS ==> InSlots(lists[k])
      ensures forall k :: 0 <= k < LISTS && k != l && k != m ==>
                var c := Nodes(nodes, heads[k], lists[k]); Ring(c) && Spared(c, RingOf(l), RingOf(m))
    {
      hide Ring, Distinct;
      forall k | 0 <= k < LISTS && k != l && k != m
        ensures Spared(Nodes(nodes, heads[k], lists[k]), RingOf(l), RingOf(m))
      {
        NodesApart(nodes, heads, lists[k], k, lists[l], l);
        NodesApart(nodes, heads, lists[k], k, lists[m], m);
      }
    }
  }

  ghost predicate Spared(c: seq<ListNode>, from: seq<ListNode>, to: seq<ListNode>) {
    forall j :: 0 <= j < |c| ==> c[j] !in from && c[j] !in to
  }

  lemma MovedLists(lists: seq<seq<nat>>, t: nat, l: nat, m: nat)
    requires |lists| == LISTS && l < LISTS && m < LISTS
    ensures |Moved(lists, t, l, m)| == LISTS
    ensures Moved(lists, t, l, m)[m] == [t] + if l == m then Remove(lists[l], t) else lists[m]
    ensures l != m ==> Moved(lists, t, l, m)[l] == Remove(lists[l], t)
    ensures forall k :: 0 <= k < LISTS && k != l && k != m ==> Moved(lists, t, l, m)[k] == lists[k]
  {
  }

  lemma SpreadAll(lists: seq<seq<nat>>)
    requires Spread(lists)
    ensures |lists| == LISTS && forall l :: 0 <= l < LISTS ==> Distinct(lists[l]) && InSlots(lists[l])
  {
  }
}
