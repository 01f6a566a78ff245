/** The Fibonacci heap of fibheap/fibheap.go. */
module FibHeap {
  import opened Basics
  import opened FibNodes

  class Heap {
    var nodes: Nodes
    var roots: seq<nat>
    var size: nat
    ghost var rank: map<nat, nat>
    ghost var top: nat

    ghost predicate Shaped() reads this {
      Shape(nodes, roots, rank, top)
    }

    ghost predicate Valid() reads this {
      Shaped() && MinFirst(nodes, roots) && size == |nodes|
    }

    /** Link under the smaller of two roots. */
    method Join(mn: nat, mx: nat)
      requires Shaped() && TwoRoots(nodes, mn, mx)
      modifies this`nodes, this`roots, this`rank, this`top
      ensures Shaped() && SamePriorities(old(nodes), nodes) && |roots| < |old(roots)|
      ensures SameDegrees(old(nodes), nodes, mn)
      ensures forall y :: y in roots <==> y in old(roots) && y != mx
      ensures OnlyLinks(old(nodes), nodes)
    {
      LinkKeeps(nodes, roots, rank, top, mn, mx);
      LinkOnlyLinks(nodes, mn, mx);
      roots := Without(roots, mx);
      rank := Raised(rank, mn, mx);
      top := top + 1;
      nodes := Link(nodes, mn, mx);
    }

    /** The root `curr` is in hand; m is the minimum so far. */
    ghost predicate InHand(table: Table, todo: seq<nat>, curr: nat, m: nat) reads this {
      && Shaped() && curr in roots && curr in nodes && curr !in todo && Filed(nodes, roots, table, todo, Some(curr))
      && MinOfDone(nodes, roots, todo, Some(curr), m) && (m in roots || nodes[curr].priority <= nodes[m].priority)
    }

    /** Between two visits. */
    ghost predicate Between(table: Table, todo: seq<nat>, m: nat) reads this {
      && Shaped() && m in roots && Distinct(todo) && Filed(nodes, roots, table, todo, None)
      && MinOfDone(nodes, roots, todo, None, m)
    }

    /** The root in hand and the one of its degree become one, with the smaller priority on top. */
    method JoinOther(curr0: nat, table0: Table, ghost todo: seq<nat>, ghost m: nat) returns (table: Table, curr: nat)
      requires InHand(table0, todo, curr0, m) && 0 <= nodes[curr0].degree < |table0| && table0[nodes[curr0].degree].Some?
      modifies this`nodes, this`roots, this`rank, this`top
      ensures InHand(table, todo, curr, m) && SamePriorities(old(nodes), nodes) && |roots| < |old(roots)|
      ensures OnlyLinks(old(nodes), nodes)
    {
      var d := nodes[curr0].degree;
      var other := table0[d].value;
      var mn, mx := curr0, other;
      if nodes[other].priority < nodes[curr0].priority {
        mn, mx := other, curr0;
      }
      Join(mn, mx);
      FiledLink(old(nodes), old(roots), table0, todo, curr0, mn, mx, nodes, roots);
      table := table0[d := None];
      curr := mn;
    }

    /** The inner loop of DequeueMin: the root goes into the table, after joining those of its degree. */
    method File(root: nat, table0: Table, ghost todo: seq<nat>, ghost m: nat) returns (table: Table, curr: nat)
      requires InHand(table0, todo, root, m)
      modifies this`nodes, this`roots, this`rank, this`top
      ensures Shaped() && SamePriorities(old(nodes), nodes) && curr in roots && curr in nodes && curr !in todo
      ensures Filed(nodes, roots, table, todo, None) && MinOfDone(nodes, roots, todo, Some(curr), m)
      ensures m in roots || nodes[curr].priority <= nodes[m].priority
      ensures OnlyLinks(old(nodes), nodes)
    {
      table, curr := table0, root;
      LinksNothing(nodes);
      while true
        invariant InHand(table, todo, curr, m) && SamePriorities(old(nodes), nodes) && OnlyLinks(old(nodes), nodes)
        decreases |roots|
      {
        table := Grow(curr, table, todo);
        if table[nodes[curr].degree] == None {
          FiledPut(nodes, roots, table, todo, curr);
          table := table[nodes[curr].degree := Some(curr)];
          return;
        }
        ghost var nodes1 := nodes;
        table, curr := JoinOther(curr, table, todo, m);
        LinksTrans(old(nodes), nodes1, nodes);
      }
    }

    /** The table made long enough for the degree of curr. */
    method Grow(curr: nat, table0: Table, ghost todo: seq<nat>) returns (table: Table)
      requires Shaped() && curr in nodes && Filed(nodes, roots, table0, todo, Some(curr))
      ensures Filed(nodes, roots, table, todo, Some(curr)) && 0 <= nodes[curr].degree < |table|
    {
      table := table0;
      while nodes[curr].degree >= |table|
        invariant Filed(nodes, roots, table, todo, Some(curr))
        decreases nodes[curr].degree - |table|
      {
        FiledGrow(nodes, roots, table, todo, Some(curr));
        table := table + [None];
      }
    }

    /** One round of the outer loop. */
    method Visit(toVisit: seq<nat>, table0: Table, m0: nat) returns (table: Table, m: nat)
      requires Between(table0, toVisit, m0) && toVisit != []
      modifies this`nodes, this`roots, this`rank, this`top
      ensures Between(table, toVisit[1..], m) && SamePriorities(old(nodes), nodes) && OnlyLinks(old(nodes), nodes)
    {
      FiledTake(nodes, roots, table0, toVisit);
      RestMembers(toVisit);
      m := m0;
      var curr;
      table, curr := File(toVisit[0], table0, toVisit[1..], m0);
      if nodes[curr].priority <= nodes[m].priority {
        m := curr;
      }
    }

    /** heap.min set to m. */
    method Turn(ghost table: Table, m: nat)
      requires Between(table, [], m)
      modifies this`roots
      ensures Shaped() && MinFirst(nodes, roots) && DistinctDegrees(nodes, roots)
    {
      AllDone(nodes, roots, rank, top, table, [], m);
      roots := From(roots, m);
    }

    /** The outer loop. */
    method VisitAll() returns (table: Table, m: nat)
      requires Shaped() && roots != []
      modifies this`nodes, this`roots, this`rank, this`top
      ensures Between(table, [], m) && SamePriorities(old(nodes), nodes) && OnlyLinks(old(nodes), nodes)
    {
      LinksNothing(nodes);
      var toVisit := roots;
      table, m := [], roots[0];
      NoneDone(nodes, roots);
      while toVisit != []
        invariant Between(table, toVisit, m) && SamePriorities(old(nodes), nodes) && OnlyLinks(old(nodes), nodes)
        decreases |toVisit|
      {
        ghost var nodes0 := nodes;
        table, m := Visit(toVisit, table, m);
        SameTrans(old(nodes), nodes0, nodes);
        LinksTrans(old(nodes), nodes0, nodes);
        toVisit := toVisit[1..];
      }
    }

    /** The loops of DequeueMin leave at most one root of each degree and find the minimum. */
    method Consolidate()
      requires Shaped() && roots != []
      modifies this`nodes, this`roots, this`rank, this`top
      ensures Shaped() && SamePriorities(old(nodes), nodes) && MinFirst(nodes, roots) && DistinctDegrees(nodes, roots)
      ensures OnlyLinks(old(nodes), nodes)
    {
      var table, m := VisitAll();
      Turn(table, m);
    }

    /** The heap FloatingFibonacciHeap{resultMin, resultSize}. */
    constructor Of(ns: Nodes, rs: seq<nat>, n: nat, ghost k: map<nat, nat>, ghost t: nat)
      requires Shape(ns, rs, k, t) && MinFirst(ns, rs)
      ensures Shaped() && MinFirst(nodes, roots) && nodes == ns && roots == rs && size == n
    {
      nodes, roots, size, rank, top := ns, rs, n, k, t;
    }

    constructor ()
      ensures Valid() && nodes == map[]
    {
      nodes, roots, size, rank, top := map[], [], 0, map[], 0;
    }

    /** Min */
    method Min() returns (r: Option<nat>)
      requires Valid()
      ensures r.None? <==> nodes == map[]
      ensures r.Some? ==> r.value in nodes && roots != [] && r.value == roots[0]
      ensures r.Some? ==> forall x :: x in nodes ==> nodes[r.value].priority <= nodes[x].priority
    {
      EmptyRoots(nodes, roots, rank, top);
      if size == 0 {
        return None;
      }
      assert roots[0] in roots;
      forall x | x in nodes ensures nodes[roots[0]].priority <= nodes[x].priority {
        RootBelow(nodes, roots, rank, top, x);
      }
      return Some(roots[0]);
    }

    /** The first part of DequeueMin: the root heap.min goes, and its children become roots. */
    method TakeOut() returns (m: nat)
      requires Valid() && roots != []
      modifies this
      ensures Shaped() && m == old(roots)[0] && m in old(nodes) && size == |nodes|
      ensures Priorities(nodes) == Priorities(old(nodes)) - {m}
      ensures nodes == WithoutRoot(old(nodes), m)
    {
      m := roots[0];
      FirstThere(nodes, roots);
      FreedCount(nodes, m);
      size := size - 1;
      var ks := nodes[m].kids;
      DropRoot(m);
      FreeThere(old(nodes), old(roots), old(rank), top, nodes);
      roots := MergeLists(nodes, roots[1..], ks);
      FreeKeeps(old(nodes), old(roots), old(rank), top, nodes, roots, rank);
    }

    method DropRoot(m: nat)
      requires Linked(nodes, rank) && m in nodes
      modifies this`nodes, this`rank
      ensures nodes == Freed(old(nodes), old(nodes)[m].kids) - {m} && rank == old(rank) - {m}
    {
      KidsThere(nodes, rank, m);
      FreeAll(nodes[m].kids);
      nodes := nodes - {m};
      rank := rank - {m};
    }

    /** curr.parent = nil for all the children. */
    method FreeAll(ks: seq<nat>)
      requires AllIn(ks, nodes)
      modifies this`nodes
      ensures nodes == Freed(old(nodes), ks)
    {
      var j := 0;
      while j < |ks|
        invariant 0 <= j <= |ks| && nodes == Freed(old(nodes), ks[..j])
      {
        nodes := nodes[ks[j] := nodes[ks[j]].(parent := None)];
        assert ks[..j + 1] == ks[..j] + [ks[j]];
        j := j + 1;
      }
      assert ks[..j] == ks;
    }

    /** DequeueMin: a least entry goes, and no two of the roots left have one degree. */
    method DequeueMin() returns (r: Option<nat>)
      requires Valid()
      modifies this
      ensures Valid() && (r.None? <==> old(nodes) == map[])
      ensures r.None? ==> nodes == old(nodes)
      ensures r.Some? ==> r.value in old(nodes) && |old(roots)| > 0 && r.value == old(roots)[0] && Priorities(nodes) == Priorities(old(nodes)) - {r.value}
      ensures r.Some? ==> forall x :: x in old(nodes) ==> old(nodes)[r.value].priority <= old(nodes)[x].priority
      ensures r.Some? ==> DistinctDegrees(nodes, roots)
      ensures r.Some? ==> OnlyLinks(WithoutRoot(old(nodes), r.value), nodes)
    {
      r := Min();
      if r.None? {
        return;
      }
      var m := TakeOut();
      ConsolidateIfAny();
    }

    method ConsolidateIfAny()
      requires Shaped() && size == |nodes|
      modifies this`nodes, this`roots, this`rank, this`top
      ensures Valid() && DistinctDegrees(nodes, roots) && Priorities(nodes) == Priorities(old(nodes)) && OnlyLinks(old(nodes), nodes)
    {
      if roots != [] {
        Consolidate();
        SameCount(old(nodes), nodes);
      } else {
        LinksNothing(nodes);
      }
    }

    /** cutNode of an entry without a parent. */
    method Unmark(x: nat)
      requires Cuttable(nodes, roots, rank, top, x) && nodes[x].parent == None
      modifies this`nodes
      ensures Shaped() && MinFirst(nodes, roots) && SamePriorities(old(nodes), nodes) && SameRoots(old(nodes), nodes)
      ensures nodes == Cascade(old(nodes), rank, top, x)
    {
      nodes := nodes[x := nodes[x].(marked := false)];
      CutRootKeeps(old(nodes), roots, rank, top, x, nodes);
    }

    /** cutNode up to its last branch: x leaves the child list of p for the root list. */
    method Detach(x: nat, p: nat)
      requires Cuttable(nodes, roots, rank, top, x) && nodes[x].parent == Some(p)
      modifies this`nodes, this`roots
      ensures HasParent(old(nodes), x, p) && nodes == Cut(old(nodes), x, p) && AllIn(old(roots), nodes)
      ensures roots == MergeLists(nodes, old(roots), [x]) && rank[x] < rank[p] <= top
    {
      CutThere(nodes, roots, rank, top, x, p);
      nodes := Cut(nodes, x, p);
      roots := MergeLists(nodes, roots, [x]);
    }

    /** cutNode: x becomes a root; a parent that was marked is cut too. */
    method CutNode(x: nat)
      requires Cuttable(nodes, roots, rank, top, x)
      modifies this`nodes, this`roots
      ensures Shaped() && MinFirst(nodes, roots) && SamePriorities(old(nodes), nodes) && x in nodes && nodes[x].parent == None
      ensures SameRoots(old(nodes), nodes) && nodes == Cascade(old(nodes), rank, top, x)
      decreases top - rank[x]
    {
      if nodes[x].parent.None? {
        Unmark(x);
        return;
      }
      var p := nodes[x].parent.value;
      Detach(x, p);
      ghost var nodes1 := nodes;
      if nodes[p].marked {
        CutKeeps(old(nodes), old(roots), rank, top, x, p, nodes, roots);
        CutNode(p);
        SameTrans(old(nodes), nodes1, nodes);
      } else {
        MarkParent(x, p, old(nodes), old(roots));
      }
    }

    /** node.parent.marked = true */
    method MarkParent(x: nat, p: nat, ghost nodes0: Nodes, ghost roots0: seq<nat>)
      requires Cuttable(nodes0, roots0, rank, top, x) && HasParent(nodes0, x, p) && !nodes0[p].marked && rank[x] < rank[p] <= top
      requires nodes == Cut(nodes0, x, p) && AllIn(roots0, nodes) && roots == MergeLists(nodes, roots0, [x])
      modifies this`nodes
      ensures Shaped() && MinFirst(nodes, roots) && SamePriorities(nodes0, nodes) && x in nodes && nodes[x].parent == None
      ensures SameRoots(nodes0, nodes) && nodes == Cascade(nodes0, rank, top, x)
    {
      ghost var nodes1 := nodes;
      nodes := nodes[p := nodes[p].(marked := true)];
      MarkParentKeeps(nodes0, roots0, rank, top, x, p, nodes1, roots, nodes);
      MarkedSame(nodes0, x, p, nodes);
    }

    /** The end of decreaseKeyUnchecked: heap.min is the lowered root, if no higher. */
    method TurnIfLower(x: nat)
      requires Shaped() && Turnable(nodes, roots, x) && size == |nodes|
      modifies this`roots
      ensures Valid() && |roots| > 0 && roots[0] in nodes
      ensures nodes[x].priority <= nodes[roots[0]].priority ==> roots[0] == x
    {
      if nodes[x].priority <= nodes[roots[0]].priority {
        roots := From(roots, x);
        TurnKeeps(nodes, old(roots), rank, top, x, roots);
      }
    }

    /** node.Priority = priority, of an entry without a parent. */
    method SetRoot(x: nat, v: real)
      requires Valid() && x in nodes && v <= nodes[x].priority && nodes[x].parent == None
      modifies this`nodes
      ensures Shaped() && Turnable(nodes, roots, x) && nodes == WithPriority(old(nodes), x, v)
      ensures Priorities(nodes) == Priorities(old(nodes))[x := v] && size == |nodes|
    {
      nodes := nodes[x := nodes[x].(priority := v)];
      LoweredPriorities(old(nodes), x, v, nodes, nodes);
      LoweredRootShape(old(nodes), roots, rank, top, x, v, nodes);
    }

    /** node.Priority = priority, of an entry with a parent it is no longer above. */
    method SetChild(x: nat, v: real)
      requires Valid() && x in nodes && v <= nodes[x].priority && nodes[x].parent.Some?
      modifies this`nodes
      ensures Cuttable(nodes, roots, rank, top, x) && nodes == WithPriority(old(nodes), x, v)
      ensures Priorities(nodes) == Priorities(old(nodes))[x := v] && size == |nodes|
    {
      nodes := nodes[x := nodes[x].(priority := v)];
      LoweredPriorities(old(nodes), x, v, nodes, nodes);
      LoweredChild(old(nodes), roots, rank, top, x, v, nodes);
    }

    /** decreaseKeyUnchecked of an entry without a parent. */
    method LowerRoot(x: nat, v: real)
      requires Valid() && x in nodes && v <= nodes[x].priority && nodes[x].parent == None
      modifies this`nodes, this`roots
      ensures Valid() && Priorities(nodes) == Priorities(old(nodes))[x := v] && |roots| > 0
      ensures NoneLower(old(nodes), x, v) ==> roots[0] == x
      ensures nodes == WithPriority(old(nodes), x, v)
    {
      SetRoot(x, v);
      TurnIfLower(x);
      LowestIs(old(nodes), x, v, nodes, roots[0]);
    }

    /** decreaseKeyUnchecked of an entry with a parent it is no longer above. */
    method LowerAndCut(x: nat, v: real)
      requires Valid() && x in nodes && v <= nodes[x].priority && nodes[x].parent.Some?
      modifies this`nodes, this`roots
      ensures Valid() && Priorities(nodes) == Priorities(old(nodes))[x := v] && |roots| > 0
      ensures NoneLower(old(nodes), x, v) ==> roots[0] == x
      ensures nodes == Cascade(WithPriority(old(nodes), x, v), rank, top, x)
    {
      SetChild(x, v);
      CutAndTurn(x);
      LowestIs(old(nodes), x, v, nodes, roots[0]);
    }

    /** cutNode, and heap.min set to the entry cut if no higher. */
    method CutAndTurn(x: nat)
      requires Cuttable(nodes, roots, rank, top, x) && size == |nodes|
      modifies this`nodes, this`roots
      ensures Valid() && Priorities(nodes) == Priorities(old(nodes)) && |roots| > 0 && roots[0] in nodes && x in nodes
      ensures nodes[x].priority <= nodes[roots[0]].priority ==> roots[0] == x
      ensures nodes == Cascade(old(nodes), rank, top, x)
    {
      CutOff(x);
      TurnIfLower(x);
    }

    method CutOff(x: nat)
      requires Cuttable(nodes, roots, rank, top, x) && size == |nodes|
      modifies this`nodes, this`roots
      ensures Shaped() && Turnable(nodes, roots, x) && Priorities(nodes) == Priorities(old(nodes)) && size == |nodes|
      ensures nodes == Cascade(old(nodes), rank, top, x)
    {
      CutNode(x);
      SameCount(old(nodes), nodes);
      CutIsTurnable(nodes, roots, x);
    }

    /** decreaseKeyUnchecked */
    method DecreaseKeyUnchecked(x: nat, v: real)
      requires Valid() && x in nodes && v <= nodes[x].priority
      modifies this`nodes, this`roots
      ensures Valid() && Priorities(nodes) == Priorities(old(nodes))[x := v] && |roots| > 0
      ensures NoneLower(old(nodes), x, v) ==> roots[0] == x
      ensures if BelowParent(old(nodes), x, v) then nodes == Cascade(WithPriority(old(nodes), x, v), rank, top, x)
              else nodes == WithPriority(old(nodes), x, v)
    {
      if nodes[x].parent.None? {
        LowerRoot(x, v);
        return;
      }
      var p := nodes[x].parent.value;
      ParentIsThere(nodes, rank, x);
      if v <= nodes[p].priority {
        LowerAndCut(x, v);
      } else {
        nodes := nodes[x := nodes[x].(priority := v)];
        AboveMin(old(nodes), roots, rank, top, x, v, nodes);
        LoweredPriorities(old(nodes), x, v, nodes, nodes);
      }
    }

    /** DecreaseKey: fails on an empty heap, on nil, and when the new priority is not lower. */
    method DecreaseKey(node: Option<nat>, v: real) returns (ok: bool)
      requires Valid() && (node.Some? && nodes != map[] ==> node.value in nodes)
      modifies this`nodes, this`roots
      ensures Valid() && (ok <==> old(nodes) != map[] && node.Some? && v < old(nodes)[node.value].priority)
      ensures Priorities(nodes) == if ok then Priorities(old(nodes))[node.value := v] else Priorities(old(nodes))
    {
      if size == 0 || node.None? || v >= nodes[node.value].priority {
        return false;
      }
      DecreaseKeyUnchecked(node.value, v);
      ok := true;
    }

    /** Delete: takes out the entry if and only if no other is below -math.MaxFloat64. */
    method Delete(node: Option<nat>) returns (ok: bool)
      requires Valid() && (node.Some? && nodes != map[] ==> node.value in nodes && Lowest <= nodes[node.value].priority)
      modifies this
      ensures Valid() && (ok <==> old(nodes) != map[] && node.Some?)
      ensures !ok ==> nodes == old(nodes)
      ensures ok ==> (Priorities(nodes) == Priorities(old(nodes)) - {node.value} <==> NoneLower(old(nodes), node.value, Lowest))
      ensures ok ==> |nodes| == |old(nodes)| - 1
      ensures ok && !NoneLower(old(nodes), node.value, Lowest) ==>
        exists m :: m in old(nodes) && m != node.value && Priorities(nodes) == Priorities(old(nodes))[node.value := Lowest] - {m}
    {
      if size == 0 || node.None? {
        return false;
      }
      var x := node.value;
      DecreaseKeyUnchecked(x, Lowest);
      ghost var nodes1 := nodes;
      var m := DequeueMin();
      ok := true;
      DeletedWhat(old(nodes), nodes1, nodes, x, m.value);
    }

    /** Enqueue of a new entry. */
    method Enqueue(x: nat, v: real)
      requires Valid() && x !in nodes
      modifies this
      ensures Valid() && Priorities(nodes) == Priorities(old(nodes))[x := v] && size == old(size) + 1
      ensures nodes == old(nodes)[x := Node(v, 0, false, None, [])]
    {
      nodes := nodes[x := Node(v, 0, false, None, [])];
      rank := rank[x := 0];
      SingletonThere(old(nodes), roots, x, nodes);
      roots := MergeLists(nodes, roots, [x]);
      SingletonKeeps(old(nodes), old(roots), old(rank), top, x, nodes, roots, rank);
      size := size + 1;
    }

    /**
     * Merge: the new heap has all entries, and the two others are empty. A heap merged with
     * itself gives a heap with its entries that counts them twice.
     */
    method Merge(other: Heap) returns (h: Heap)
      requires Valid() && other.Valid() && (this != other ==> nodes.Keys !! other.nodes.Keys)
      modifies this, other
      ensures fresh(h) && h.size == old(size) + old(other.size) && Valid() && other.Valid()
      ensures nodes == map[] && other.nodes == map[]
      ensures this != other ==> h.Valid() && Priorities(h.nodes) == Priorities(old(nodes)) + Priorities(old(other.nodes))
      ensures this == other ==> h.nodes == old(nodes) && h.roots == old(roots) && h.Shaped() && MinFirst(h.nodes, h.roots)
      ensures h.Valid() <==> this != other || old(nodes) == map[]
    {
      if this == other {
        // splicing a cycle with itself leaves it as it is
        h := new Heap.Of(nodes, roots, size + size, rank, top);
        Clear();
        return;
      }
      h := MergeDistinct(other);
      Clear();
      other.Clear();
    }

    method MergeDistinct(other: Heap) returns (h: Heap)
      requires Valid() && other.Valid() && this != other && nodes.Keys !! other.nodes.Keys
      ensures fresh(h) && h.Valid() && h.size == size + other.size
      ensures Priorities(h.nodes) == Priorities(nodes) + Priorities(other.nodes)
    {
      ghost var k, t := rank + other.rank, top + other.top;
      var ns := nodes + other.nodes;
      MergeKeeps(nodes, roots, rank, top, other.nodes, other.roots, other.rank, other.top, ns, k, t);
      MergePriorities(nodes, other.nodes);
      var rs := MergeLists(ns, roots, other.roots);
      h := new Heap.Of(ns, rs, size + other.size, k, t);
    }

    method Clear()
      modifies this
      ensures Valid() && nodes == map[]
    {
      nodes, roots, size, rank, top := map[], [], 0, map[], 0;
    }
  }

  /** A heap with two entries, one of them below -math.MaxFloat64. */
  method TwoEntries() returns (h: Heap)
    ensures fresh(h) && h.Valid() && Priorities(h.nodes) == map[0 := Lowest - 1.0, 1 := Lowest + 1.0]
  {
    h := new Heap();
    assert Priorities(h.nodes) == map[];
    h.Enqueue(0, Lowest - 1.0);
    KeysAre(h.nodes);
    h.Enqueue(1, Lowest + 1.0);
  }

  lemma {:induction false} KeysAre(nodes: Nodes)
    ensures nodes.Keys == Priorities(nodes).Keys && forall x :: x in nodes ==> nodes[x].priority == Priorities(nodes)[x]
  {
  }

  /** Deleting the other one then takes out the wrong entry. */
  method DeleteTakesTheOther() returns (h: Heap)
    ensures fresh(h) && h.Valid() && h.nodes.Keys == {1}
  {
    h := TwoEntries();
    KeysAre(h.nodes);
    assert !NoneLower(h.nodes, 1, Lowest) by { assert h.nodes[0].priority < Lowest; }
    var ok := h.Delete(Some(1));
    KeysAre(h.nodes);
  }
}
