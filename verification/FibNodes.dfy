/**
 * The entries of the Fibonacci heap of fibheap/fibheap.go, how they are linked, and what
 * cutting, linking and freeing them keep. Entries are named by numbers; a circular list is
 * the sequence of its entries from the one its owner points at (heap.min for the root list,
 * parent.child for a list of children).
 */
module FibNodes {
  import opened Basics

  datatype Node = Node(priority: real, degree: int, marked: bool, parent: Option<nat>, kids: seq<nat>)

  type Nodes = map<nat, Node>

  // ---------------------------------------------------------- circular lists

  ghost predicate Distinct(s: seq<nat>) {
    forall x :: multiset(s)[x] <= 1
  }

  ghost predicate AllIn(s: seq<nat>, nodes: Nodes) {
    forall i :: 0 <= i < |s| ==> s[i] in nodes
  }

  /** mergeLists: the two cycles spliced, seen from the entry with the smaller priority. */
  function MergeLists(nodes: Nodes, a: seq<nat>, b: seq<nat>): (r: seq<nat>)
    requires AllIn(a, nodes) && AllIn(b, nodes)
    ensures multiset(r) == multiset(a) + multiset(b)
    ensures |r| > 0 ==> (|a| > 0 && r[0] == a[0]) || (|b| > 0 && r[0] == b[0])
    ensures |a| > 0 ==> |r| > 0 && r[0] in nodes && nodes[r[0]].priority <= nodes[a[0]].priority
    ensures |b| > 0 ==> |r| > 0 && r[0] in nodes && nodes[r[0]].priority <= nodes[b[0]].priority
  {
    if a == [] then b
    else if b == [] then a
    else
      assert a == [a[0]] + a[1..] && b == [b[0]] + b[1..];
      if nodes[a[0]].priority < nodes[b[0]].priority then [a[0]] + b[1..] + [b[0]] + a[1..]
      else [b[0]] + a[1..] + [a[0]] + b[1..]
  }

  /** Where x is in the list. */
  function IndexOf(s: seq<nat>, x: nat): (i: nat)
    requires x in s
    ensures i < |s| && s[i] == x
  {
    if s[0] == x then 0 else 1 + IndexOf(s[1..], x)
  }

  /** The cycle without x. */
  function Without(s: seq<nat>, x: nat): (r: seq<nat>)
    requires x in s
    ensures multiset(r) == multiset(s) - multiset{x}
  {
    var i := IndexOf(s, x);
    assert s == s[..i] + [x] + s[i + 1..];
    s[..i] + s[i + 1..]
  }

  /** The cycle seen from x. */
  function From(s: seq<nat>, x: nat): (r: seq<nat>)
    requires x in s
    ensures multiset(r) == multiset(s) && |r| > 0 && r[0] == x
  {
    var i := IndexOf(s, x);
    assert s == s[..i] + s[i..];
    s[i..] + s[..i]
  }

  lemma {:induction false} MemberCounts(s: seq<nat>, x: nat)
    ensures x in s <==> multiset(s)[x] > 0
  {
    assert x in s <==> x in multiset(s);
  }

  lemma {:induction false} WithoutMembers(s: seq<nat>, x: nat, y: nat)
    requires x in s && Distinct(s)
    ensures y in Without(s, x) <==> y in s && y != x
    ensures Distinct(Without(s, x))
  {
    MemberCounts(s, y);
    MemberCounts(s, x);
    MemberCounts(Without(s, x), y);
    assert multiset(s)[y] <= 1 && multiset(s)[x] <= 1;
  }

  lemma {:induction false} MergeMembers(nodes: Nodes, a: seq<nat>, b: seq<nat>, y: nat)
    requires AllIn(a, nodes) && AllIn(b, nodes)
    ensures y in MergeLists(nodes, a, b) <==> y in a || y in b
    ensures Distinct(a) && Distinct(b) && (forall x :: x in a ==> x !in b) ==> Distinct(MergeLists(nodes, a, b))
  {
    MemberCounts(a, y);
    MemberCounts(b, y);
    var r := MergeLists(nodes, a, b);
    MemberCounts(r, y);
    if Distinct(a) && Distinct(b) && (forall x :: x in a ==> x !in b) {
      forall x ensures multiset(r)[x] <= 1 {
        MemberCounts(a, x);
        MemberCounts(b, x);
      }
    }
  }

  lemma {:induction false} RestMembers(s: seq<nat>)
    requires |s| > 0 && Distinct(s)
    ensures Distinct(s[1..]) && forall y :: y in s[1..] <==> y in s && y != s[0]
  {
    assert s == [s[0]] + s[1..];
    forall y ensures multiset(s[1..])[y] <= 1 && (y in s[1..] <==> y in s && y != s[0]) {
      assert multiset(s)[y] <= 1;
      MemberCounts(s[1..], y);
      MemberCounts(s, y);
    }
  }

  lemma {:induction false} MergeAll(nodes: Nodes, a: seq<nat>, b: seq<nat>)
    requires AllIn(a, nodes) && AllIn(b, nodes) && Distinct(a) && Distinct(b) && (forall x :: x in a ==> x !in b)
    ensures Distinct(MergeLists(nodes, a, b))
    ensures forall y :: y in MergeLists(nodes, a, b) <==> y in a || y in b
  {
    forall y ensures y in MergeLists(nodes, a, b) <==> y in a || y in b { MergeMembers(nodes, a, b, y); }
    MergeMembers(nodes, a, b, 0);
  }

  // ---------------------------------------------------------- the invariants

  /** The links agree: degrees, child lists and parents; ranks fall from parent to child. */
  ghost predicate Linked(nodes: Nodes, rank: map<nat, nat>) {
    rank.Keys == nodes.Keys && Sized(nodes) && Down(nodes, rank) && Up(nodes)
  }

  ghost predicate Sized(nodes: Nodes) {
    forall x :: x in nodes ==> |nodes[x].kids| == nodes[x].degree && Distinct(nodes[x].kids)
  }

  ghost predicate Down(nodes: Nodes, rank: map<nat, nat>)
    requires rank.Keys == nodes.Keys
  {
    forall x, c {:trigger c in nodes[x].kids} :: x in nodes && c in nodes[x].kids ==> c in nodes && nodes[c].parent == Some(x) && rank[c] < rank[x]
  }

  ghost predicate Up(nodes: Nodes) {
    forall c {:trigger nodes[c].parent} :: c in nodes && nodes[c].parent.Some? ==>
      nodes[c].parent.value in nodes && c in nodes[nodes[c].parent.value].kids
  }

  /** No entry but `but` is below its parent. */
  ghost predicate Ordered(nodes: Nodes, but: Option<nat>) {
    forall c {:trigger nodes[c].parent} :: c in nodes && nodes[c].parent.Some? && but != Some(c) && nodes[c].parent.value in nodes ==>
      nodes[nodes[c].parent.value].priority <= nodes[c].priority
  }

  /** The root list is the entries without a parent. */
  ghost predicate Rooted(nodes: Nodes, roots: seq<nat>) {
    && Distinct(roots)
    && (forall x {:trigger x in roots} {:trigger nodes[x].parent} :: x in roots <==> x in nodes && nodes[x].parent == None)
  }

  ghost predicate MinFirst(nodes: Nodes, roots: seq<nat>) {
    forall x {:trigger x in roots} :: x in roots && x in nodes && |roots| > 0 && roots[0] in nodes ==> nodes[roots[0]].priority <= nodes[x].priority
  }

  /** What a child brought along: its degree, and one more if it has lost a child since. */
  ghost function Brought(n: Node): (b: int) { n.degree + if n.marked then 1 else 0 }

  /** How many of the children, leaving out `but`, brought less than j. */
  ghost function Low(nodes: Nodes, ks: seq<nat>, but: Option<nat>, j: int): (n: nat)
    ensures n <= |ks|
  {
    if ks == [] then 0
    else (if ks[0] in nodes && but != Some(ks[0]) && Brought(nodes[ks[0]]) < j then 1 else 0) + Low(nodes, ks[1..], but, j)
  }

  /** The mark rule: at most j children brought less than j. */
  ghost predicate MarkRule(nodes: Nodes, ks: seq<nat>, but: Option<nat>) {
    forall j: nat :: Low(nodes, ks, but, j) <= j
  }

  ghost predicate Marks(nodes: Nodes, but: Option<nat>) {
    forall x :: x in nodes ==> MarkRule(nodes, nodes[x].kids, but)
  }

  // ------------------------------------------------------- counting children

  lemma {:induction false} LowConcat(nodes: Nodes, a: seq<nat>, b: seq<nat>, but: Option<nat>, j: int)
    ensures Low(nodes, a + b, but, j) == Low(nodes, a, but, j) + Low(nodes, b, but, j)
  {
    if a == [] {
      assert a + b == b;
    } else {
      assert (a + b)[1..] == a[1..] + b;
      LowConcat(nodes, a[1..], b, but, j);
    }
  }

  /** Children that bring no less count no more. */
  lemma {:induction false} LowFrame(nodes: Nodes, but: Option<nat>, nodes': Nodes, but': Option<nat>, ks: seq<nat>, j: int)
    requires forall c :: c in ks && but' != Some(c) && c in nodes' ==>
      but != Some(c) && c in nodes && Brought(nodes[c]) <= Brought(nodes'[c])
    ensures Low(nodes', ks, but', j) <= Low(nodes, ks, but, j)
  {
    if ks != [] {
      assert ks[0] in ks;
      assert forall c :: c in ks[1..] ==> c in ks;
      LowFrame(nodes, but, nodes', but', ks[1..], j);
    }
  }

  lemma {:induction false} LowWithout(nodes: Nodes, ks: seq<nat>, x: nat, but: Option<nat>, j: int)
    requires x in ks
    ensures Low(nodes, Without(ks, x), but, j) <= Low(nodes, ks, but, j)
  {
    var i := IndexOf(ks, x);
    LowConcat(nodes, ks[..i], ks[i + 1..], but, j);
    LowConcat(nodes, ks[..i], ks[i..], but, j);
    assert ks == ks[..i] + ks[i..] && ks[i..][1..] == ks[i + 1..];
  }

  lemma {:induction false} LowMerge(nodes: Nodes, a: seq<nat>, x: nat, but: Option<nat>, j: int)
    requires AllIn(a, nodes) && x in nodes
    ensures Low(nodes, MergeLists(nodes, a, [x]), but, j) == Low(nodes, a, but, j) + Low(nodes, [x], but, j)
  {
    if a != [] {
      assert a == [a[0]] + a[1..] && [x][1..] == [];
      LowConcat(nodes, [a[0]], a[1..], but, j);
      if nodes[a[0]].priority < nodes[x].priority {
        assert MergeLists(nodes, a, [x]) == [a[0]] + ([x] + a[1..]);
        LowConcat(nodes, [a[0]], [x] + a[1..], but, j);
        LowConcat(nodes, [x], a[1..], but, j);
      } else {
        assert MergeLists(nodes, a, [x]) == [x] + (a[1..] + [a[0]]);
        LowConcat(nodes, [x], a[1..] + [a[0]], but, j);
        LowConcat(nodes, a[1..], [a[0]], but, j);
      }
    }
  }

  // ----------------------------------------------------------------- cutting

  ghost predicate SamePriorities(nodes: Nodes, nodes': Nodes) {
    nodes'.Keys == nodes.Keys && forall x :: x in nodes ==> nodes'[x].priority == nodes[x].priority
  }

  /** What had no parent still has none. */
  ghost predicate SameRoots(nodes: Nodes, nodes': Nodes) {
    forall y {:trigger nodes'[y].parent} :: y in nodes' && y in nodes && nodes[y].parent == None ==> nodes'[y].parent == None
  }

  ghost predicate HasParent(nodes: Nodes, x: nat, p: nat) {
    x in nodes && nodes[x].parent == Some(p) && p in nodes && p != x && x in nodes[p].kids
  }

  lemma {:induction false} ParentIsThere(nodes: Nodes, rank: map<nat, nat>, x: nat)
    requires Linked(nodes, rank) && x in nodes && nodes[x].parent.Some?
    ensures HasParent(nodes, x, nodes[x].parent.value) && rank[x] < rank[nodes[x].parent.value]
  {
  }

  /** x taken out of the child list of p. */
  function Cut(nodes: Nodes, x: nat, p: nat): (r: Nodes)
    requires x in nodes && p in nodes && p != x && x in nodes[p].kids
    ensures SamePriorities(nodes, r)
  {
    nodes[x := nodes[x].(marked := false, parent := None)]
         [p := nodes[p].(kids := Without(nodes[p].kids, x), degree := nodes[p].degree - 1)]
  }

  /** The new child list: the old one without x. */
  ghost predicate OneLess(ks: seq<nat>, ks': seq<nat>, x: nat) {
    |ks'| == |ks| - 1 && Distinct(ks') && forall y :: y in ks' <==> y in ks && y != x
  }

  lemma {:induction false} WithoutIs(ks: seq<nat>, x: nat)
    requires x in ks && Distinct(ks)
    ensures OneLess(ks, Without(ks, x), x)
  {
    forall y ensures y in Without(ks, x) <==> y in ks && y != x { WithoutMembers(ks, x, y); }
    WithoutMembers(ks, x, x);
  }

  lemma {:induction false} CutDown(nodes: Nodes, rank: map<nat, nat>, r: Nodes, x: nat, p: nat, ks': seq<nat>)
    requires Linked(nodes, rank) && HasParent(nodes, x, p) && OneLess(nodes[p].kids, ks', x)
    requires r == nodes[x := nodes[x].(marked := false, parent := None)]
                       [p := nodes[p].(kids := ks', degree := nodes[p].degree - 1)]
    ensures Down(r, rank)
  {
    forall y, c | y in r && c in r[y].kids ensures c in r && r[c].parent == Some(y) && rank[c] < rank[y] {
      assert c in nodes[y].kids;
    }
  }

  lemma {:induction false} CutUp(nodes: Nodes, rank: map<nat, nat>, r: Nodes, x: nat, p: nat, ks': seq<nat>)
    requires Linked(nodes, rank) && HasParent(nodes, x, p) && OneLess(nodes[p].kids, ks', x)
    requires r == nodes[x := nodes[x].(marked := false, parent := None)]
                       [p := nodes[p].(kids := ks', degree := nodes[p].degree - 1)]
    ensures Up(r) && Sized(r)
  {
  }

  lemma {:induction false} CutLinks(nodes: Nodes, rank: map<nat, nat>, x: nat, p: nat)
    requires Linked(nodes, rank) && HasParent(nodes, x, p)
    ensures Linked(Cut(nodes, x, p), rank)
  {
    var r, ks' := Cut(nodes, x, p), Without(nodes[p].kids, x);
    WithoutIs(nodes[p].kids, x);
    CutDown(nodes, rank, r, x, p, ks');
    CutUp(nodes, rank, r, x, p, ks');
  }

  lemma {:induction false} CutOrders(nodes: Nodes, x: nat, p: nat)
    requires HasParent(nodes, x, p) && Ordered(nodes, Some(x))
    ensures Ordered(Cut(nodes, x, p), None)
  {
  }

  lemma {:induction false} CutRoots(nodes: Nodes, x: nat, p: nat, roots: seq<nat>)
    requires HasParent(nodes, x, p) && Rooted(nodes, roots) && MinFirst(nodes, roots)
    ensures AllIn(roots, Cut(nodes, x, p))
    ensures Rooted(Cut(nodes, x, p), MergeLists(Cut(nodes, x, p), roots, [x]))
    ensures MinFirst(Cut(nodes, x, p), MergeLists(Cut(nodes, x, p), roots, [x]))
  {
    var r := Cut(nodes, x, p);
    assert AllIn(roots, r) by {
      forall i | 0 <= i < |roots| ensures roots[i] in r { assert roots[i] in roots; }
    }
    var merged := MergeLists(r, roots, [x]);
    forall y ensures y in merged <==> y in roots || y == x { MergeMembers(r, roots, [x], y); }
    MergeMembers(r, roots, [x], x);
    forall y | y in merged && y in r && |merged| > 0 && merged[0] in r ensures r[merged[0]].priority <= r[y].priority {
      if y in roots { assert nodes[roots[0]].priority <= nodes[y].priority by { assert roots[0] in roots; } }
    }
  }

  /** After a cut the mark rule holds but for the parent, and for it too once it is marked. */
  lemma {:induction false} CutMarks(nodes: Nodes, rank: map<nat, nat>, x: nat, p: nat)
    requires Linked(nodes, rank) && HasParent(nodes, x, p) && Marks(nodes, Some(x))
    ensures Marks(Cut(nodes, x, p), Some(p))
    ensures !nodes[p].marked ==> Marks(Cut(nodes, x, p)[p := Cut(nodes, x, p)[p].(marked := true)], None)
  {
    var r := Cut(nodes, x, p);
    forall y, j: nat | y in r ensures Low(r, r[y].kids, Some(p), j) <= j {
      CutLow(nodes, rank, x, p, r, Some(p), y, j);
    }
    if !nodes[p].marked {
      var r' := r[p := r[p].(marked := true)];
      forall y, j: nat | y in r' ensures Low(r', r'[y].kids, None, j) <= j {
        CutLow(nodes, rank, x, p, r', None, y, j);
      }
    }
  }

  lemma {:induction false} CutLow(nodes: Nodes, rank: map<nat, nat>, x: nat, p: nat, r: Nodes, but: Option<nat>, y: nat, j: nat)
    requires Linked(nodes, rank) && HasParent(nodes, x, p) && Marks(nodes, Some(x)) && y in nodes
    requires r.Keys == nodes.Keys && r[y].kids == Cut(nodes, x, p)[y].kids
    requires forall c :: c in nodes && c != x && but != Some(c) ==> Brought(nodes[c]) <= Brought(r[c])
    ensures Low(r, r[y].kids, but, j) <= j
  {
    var ks := nodes[y].kids;
    assert MarkRule(nodes, ks, Some(x));
    if y == p {
      forall c | c in r[y].kids ensures c in nodes && c != x { WithoutMembers(ks, x, c); }
      LowFrame(nodes, Some(x), r, but, r[y].kids, j);
      LowWithout(nodes, ks, x, Some(x), j);
    } else {
      LowFrame(nodes, Some(x), r, but, ks, j);
    }
  }

  // ----------------------------------------------------------------- linking

  /** mx made a child of mn. */
  function Link(nodes: Nodes, mn: nat, mx: nat): (r: Nodes)
    requires mn in nodes && mx in nodes && AllIn(nodes[mn].kids, nodes)
    ensures SamePriorities(nodes, r)
  {
    nodes[mx := nodes[mx].(parent := Some(mn), marked := false)]
         [mn := nodes[mn].(kids := MergeLists(nodes, nodes[mn].kids, [mx]), degree := nodes[mn].degree + 1)]
  }

  /**
   * What linking roots may do to x: a child stays where it is, with its mark; a root that
   * becomes a child is not marked then, and one that stays a root keeps its mark.
   */
  ghost predicate LinkedAt(nodes: Nodes, r: Nodes, x: nat)
    requires x in nodes && x in r
  {
    && (nodes[x].parent.Some? ==> r[x].parent == nodes[x].parent)
    && r[x].marked == (if nodes[x].parent.None? && r[x].parent.Some? then false else nodes[x].marked)
  }

  ghost predicate OnlyLinks(nodes: Nodes, r: Nodes) {
    r.Keys == nodes.Keys && forall x {:trigger LinkedAt(nodes, r, x)} :: x in nodes ==> LinkedAt(nodes, r, x)
  }

  ghost predicate SameDegrees(nodes: Nodes, r: Nodes, but: nat) {
    forall x :: x in r && x in nodes && x != but ==> r[x].degree == nodes[x].degree
  }

  lemma {:induction false} LinkOnlyLinks(nodes: Nodes, mn: nat, mx: nat)
    requires TwoRoots(nodes, mn, mx) && AllIn(nodes[mn].kids, nodes)
    ensures OnlyLinks(nodes, Link(nodes, mn, mx)) && SameDegrees(nodes, Link(nodes, mn, mx), mn)
  {
    var r := Link(nodes, mn, mx);
    forall x | x in nodes ensures LinkedAt(nodes, r, x) {}
  }

  lemma {:induction false} LinksNothing(nodes: Nodes)
    ensures OnlyLinks(nodes, nodes)
  {
    forall x | x in nodes ensures LinkedAt(nodes, nodes, x) {}
  }

  lemma {:induction false} LinksTrans(a: Nodes, b: Nodes, c: Nodes)
    requires OnlyLinks(a, b) && OnlyLinks(b, c)
    ensures OnlyLinks(a, c)
  {
    forall x | x in a ensures LinkedAt(a, c, x) { assert LinkedAt(a, b, x) && LinkedAt(b, c, x); }
  }

  ghost predicate TwoRoots(nodes: Nodes, mn: nat, mx: nat) {
    && mn in nodes && mx in nodes && mn != mx && nodes[mn].parent == None && nodes[mx].parent == None
    && nodes[mn].degree == nodes[mx].degree && nodes[mn].priority <= nodes[mx].priority
  }

  lemma {:induction false} KidsThere(nodes: Nodes, rank: map<nat, nat>, x: nat)
    requires Linked(nodes, rank) && x in nodes
    ensures AllIn(nodes[x].kids, nodes)
  {
    forall i | 0 <= i < |nodes[x].kids| ensures nodes[x].kids[i] in nodes { assert nodes[x].kids[i] in nodes[x].kids; }
  }

  ghost function Raised(rank: map<nat, nat>, mn: nat, mx: nat): (r: map<nat, nat>)
    requires mn in rank && mx in rank
  {
    rank[mn := if rank[mn] <= rank[mx] then rank[mx] + 1 else rank[mn]]
  }

  /** The new child list: the old one and mx. */
  ghost predicate OneMore(ks: seq<nat>, ks': seq<nat>, x: nat) {
    x !in ks && x in ks' && |ks'| == |ks| + 1 && Distinct(ks') && forall y :: y in ks' <==> y in ks || y == x
  }

  lemma {:induction false} LinkKids(nodes: Nodes, rank: map<nat, nat>, mn: nat, mx: nat)
    requires Linked(nodes, rank) && TwoRoots(nodes, mn, mx) && AllIn(nodes[mn].kids, nodes)
    ensures OneMore(nodes[mn].kids, Link(nodes, mn, mx)[mn].kids, mx)
  {
    var ks := nodes[mn].kids;
    assert mx !in ks;
    forall y ensures y in MergeLists(nodes, ks, [mx]) <==> y in ks || y == mx { MergeMembers(nodes, ks, [mx], y); }
    MergeMembers(nodes, ks, [mx], mx);
    assert |MergeLists(nodes, ks, [mx])| == |ks| + 1;
  }

  lemma {:induction false} LinkDown(nodes: Nodes, rank: map<nat, nat>, r: Nodes, rank': map<nat, nat>, mn: nat, mx: nat, ks': seq<nat>)
    requires Linked(nodes, rank) && TwoRoots(nodes, mn, mx) && OneMore(nodes[mn].kids, ks', mx)
    requires r == nodes[mx := nodes[mx].(parent := Some(mn), marked := false)]
                       [mn := nodes[mn].(kids := ks', degree := nodes[mn].degree + 1)]
    requires rank' == Raised(rank, mn, mx)
    ensures Down(r, rank')
  {
    forall x, c | x in r && c in r[x].kids ensures c in r && r[c].parent == Some(x) && rank'[c] < rank'[x] {
      if x == mn && c == mx {
      } else {
        assert c in nodes[x].kids;
      }
    }
  }

  lemma {:induction false} LinkUp(nodes: Nodes, rank: map<nat, nat>, r: Nodes, mn: nat, mx: nat, ks': seq<nat>)
    requires Linked(nodes, rank) && TwoRoots(nodes, mn, mx) && OneMore(nodes[mn].kids, ks', mx)
    requires r == nodes[mx := nodes[mx].(parent := Some(mn), marked := false)]
                       [mn := nodes[mn].(kids := ks', degree := nodes[mn].degree + 1)]
    ensures Up(r) && Sized(r)
  {
  }

  lemma {:induction false} LinkLinks(nodes: Nodes, rank: map<nat, nat>, mn: nat, mx: nat)
    requires Linked(nodes, rank) && TwoRoots(nodes, mn, mx) && AllIn(nodes[mn].kids, nodes)
    ensures Linked(Link(nodes, mn, mx), Raised(rank, mn, mx))
  {
    var r := Link(nodes, mn, mx);
    LinkKids(nodes, rank, mn, mx);
    LinkDown(nodes, rank, r, Raised(rank, mn, mx), mn, mx, r[mn].kids);
    LinkUp(nodes, rank, r, mn, mx, r[mn].kids);
  }

  lemma {:induction false} LinkOrders(nodes: Nodes, rank: map<nat, nat>, mn: nat, mx: nat)
    requires Linked(nodes, rank) && TwoRoots(nodes, mn, mx) && AllIn(nodes[mn].kids, nodes) && Ordered(nodes, None)
    ensures Ordered(Link(nodes, mn, mx), None)
  {
  }

  lemma {:induction false} LinkRoots(nodes: Nodes, mn: nat, mx: nat, roots: seq<nat>)
    requires TwoRoots(nodes, mn, mx) && AllIn(nodes[mn].kids, nodes) && Rooted(nodes, roots)
    ensures mx in roots && Rooted(Link(nodes, mn, mx), Without(roots, mx))
    ensures |Without(roots, mx)| < |roots|
  {
    forall y ensures y in Without(roots, mx) <==> y in roots && y != mx { WithoutMembers(roots, mx, y); }
    WithoutMembers(roots, mx, mx);
  }

  /** The new child brings the degree of its parent. */
  lemma {:induction false} LinkMarks(nodes: Nodes, rank: map<nat, nat>, mn: nat, mx: nat)
    requires Linked(nodes, rank) && TwoRoots(nodes, mn, mx) && AllIn(nodes[mn].kids, nodes) && Marks(nodes, None)
    ensures Marks(Link(nodes, mn, mx), None)
  {
    var r := Link(nodes, mn, mx);
    forall y, j: nat | y in r ensures Low(r, r[y].kids, None, j) <= j {
      var ks := nodes[y].kids;
      assert MarkRule(nodes, ks, None);
      assert mx !in ks && mn !in ks;
      LowFrame(nodes, None, r, None, ks, j);
      if y == mn {
        LowMergeOver(nodes, r, ks, mx, j);
        assert Low(r, [mx], None, j) == if Brought(r[mx]) < j then 1 else 0 by { assert [mx][1..] == []; }
      }
    }
  }

  lemma {:induction false} LowMergeOver(nodes: Nodes, r: Nodes, ks: seq<nat>, x: nat, j: int)
    requires AllIn(ks, nodes) && x in nodes && SamePriorities(nodes, r)
    ensures Low(r, MergeLists(nodes, ks, [x]), None, j) == Low(r, ks, None, j) + Low(r, [x], None, j)
  {
    assert AllIn(ks, r);
    assert MergeLists(nodes, ks, [x]) == MergeLists(r, ks, [x]);
    LowMerge(r, ks, x, None, j);
  }

  // ------------------------------------------------------- taking out a root

  /** The entries ks made parentless. */
  function Freed(nodes: Nodes, ks: seq<nat>): (r: Nodes)
    ensures SamePriorities(nodes, r)
  {
    map x | x in nodes :: if x in ks then nodes[x].(parent := None) else nodes[x]
  }

  /** The entries without the root m, whose children are roots. */
  ghost function WithoutRoot(nodes: Nodes, m: nat): (r: Nodes)
    requires m in nodes
  {
    Freed(nodes, nodes[m].kids) - {m}
  }

  lemma {:induction false} FreeLinks(nodes: Nodes, rank: map<nat, nat>, m: nat)
    requires Linked(nodes, rank) && m in nodes && nodes[m].parent == None
    ensures Linked(Freed(nodes, nodes[m].kids) - {m}, rank - {m})
  {
    var r, rank' := Freed(nodes, nodes[m].kids) - {m}, rank - {m};
    forall x, c | x in r && c in r[x].kids ensures c in r && r[c].parent == Some(x) && rank'[c] < rank'[x] {
      assert c in nodes[x].kids;
    }
    assert Down(r, rank');
    assert Up(r);
  }

  lemma {:induction false} FreeOrders(nodes: Nodes, rank: map<nat, nat>, m: nat)
    requires Linked(nodes, rank) && m in nodes && Ordered(nodes, None)
    ensures Ordered(Freed(nodes, nodes[m].kids) - {m}, None)
  {
  }

  lemma {:induction false} FreeMarks(nodes: Nodes, m: nat)
    requires m in nodes && Marks(nodes, None)
    ensures Marks(Freed(nodes, nodes[m].kids) - {m}, None)
  {
    var r := Freed(nodes, nodes[m].kids) - {m};
    forall y, j: nat | y in r ensures Low(r, r[y].kids, None, j) <= j {
      assert MarkRule(nodes, nodes[y].kids, None);
      LowFrame(nodes, None, r, None, r[y].kids, j);
    }
  }

  lemma {:induction false} FreeRoots(nodes: Nodes, rank: map<nat, nat>, m: nat, roots: seq<nat>)
    requires Linked(nodes, rank) && Rooted(nodes, roots) && |roots| > 0 && roots[0] == m && m in nodes
    ensures var r := Freed(nodes, nodes[m].kids) - {m};
      AllIn(roots[1..], r) && AllIn(nodes[m].kids, r) && Rooted(r, MergeLists(r, roots[1..], nodes[m].kids))
  {
    var r := Freed(nodes, nodes[m].kids) - {m};
    var rest, ks := roots[1..], nodes[m].kids;
    RestMembers(roots);
    assert m in roots && m !in ks;
    forall y | y in ks ensures y in nodes && y !in roots { assert nodes[y].parent == Some(m); }
    assert AllIn(rest, r) by { assert forall i :: 0 <= i < |rest| ==> rest[i] in rest; }
    assert AllIn(ks, r) by { assert forall i :: 0 <= i < |ks| ==> ks[i] in ks; }
    MergeAll(r, rest, ks);
    FreedRoots(nodes, rank, m, roots, MergeLists(r, rest, ks));
  }

  lemma {:induction false} FreedRoots(nodes: Nodes, rank: map<nat, nat>, m: nat, roots: seq<nat>, merged: seq<nat>)
    requires Linked(nodes, rank) && Rooted(nodes, roots) && m in nodes && m in roots && Distinct(merged)
    requires forall y :: y in merged <==> (y in roots && y != m) || y in nodes[m].kids
    ensures Rooted(Freed(nodes, nodes[m].kids) - {m}, merged)
  {
  }

  // ----------------------------------------------------------- consolidation

  type Table = seq<Option<nat>>

  /** Root r is in the table, at its degree. */
  ghost predicate InTable(nodes: Nodes, table: Table, r: nat) {
    r in nodes && 0 <= nodes[r].degree < |table| && table[nodes[r].degree] == Some(r)
  }

  /** The roots are those to do, the one in hand, and those in the table. */
  ghost predicate Filed(nodes: Nodes, roots: seq<nat>, table: Table, todo: seq<nat>, curr: Option<nat>) {
    && (forall r :: r in roots ==> r in todo || curr == Some(r) || InTable(nodes, table, r))
    && (forall d :: 0 <= d < |table| && table[d].Some? ==>
          var r := table[d].value; r in roots && r in nodes && nodes[r].degree == d && r !in todo && curr != Some(r))
    && (forall r :: r in todo ==> r in roots)
  }

  lemma {:induction false} FiledTake(nodes: Nodes, roots: seq<nat>, table: Table, todo: seq<nat>)
    requires Filed(nodes, roots, table, todo, None) && |todo| > 0 && Distinct(todo)
    ensures Filed(nodes, roots, table, todo[1..], Some(todo[0])) && todo[0] in roots && todo[0] !in todo[1..] && Distinct(todo[1..])
  {
    RestMembers(todo);
  }

  lemma {:induction false} FiledGrow(nodes: Nodes, roots: seq<nat>, table: Table, todo: seq<nat>, curr: Option<nat>)
    requires Filed(nodes, roots, table, todo, curr)
    ensures Filed(nodes, roots, table + [None], todo, curr)
  {
    var t := table + [None];
    forall r | r in roots ensures r in todo || curr == Some(r) || InTable(nodes, t, r) {
      if InTable(nodes, table, r) { assert t[nodes[r].degree] == table[nodes[r].degree]; }
    }
  }

  lemma {:induction false} FiledPut(nodes: Nodes, roots: seq<nat>, table: Table, todo: seq<nat>, curr: nat)
    requires Filed(nodes, roots, table, todo, Some(curr)) && curr in nodes && curr in roots && curr !in todo
    requires 0 <= nodes[curr].degree < |table| && table[nodes[curr].degree] == None
    ensures Filed(nodes, roots, table[nodes[curr].degree := Some(curr)], todo, None)
  {
    var t := table[nodes[curr].degree := Some(curr)];
    forall r | r in roots ensures r in todo || InTable(nodes, t, r) {
      if r != curr && InTable(nodes, table, r) { assert t[nodes[r].degree] == Some(r); }
    }
  }

  /** Two roots of one degree become one. */
  lemma {:induction false} FiledLink(nodes: Nodes, roots: seq<nat>, table: Table, todo: seq<nat>, curr: nat, mn: nat, mx: nat, r: Nodes, roots': seq<nat>)
    requires Filed(nodes, roots, table, todo, Some(curr)) && Rooted(nodes, roots) && curr in nodes && curr !in todo
    requires 0 <= nodes[curr].degree < |table| && table[nodes[curr].degree].Some?
    requires var other := table[nodes[curr].degree].value; (mn == other && mx == curr) || (mn == curr && mx == other)
    requires r.Keys == nodes.Keys && forall x :: x in nodes && x != mn ==> r[x].degree == nodes[x].degree
    requires forall y :: y in roots' <==> y in roots && y != mx
    ensures Filed(r, roots', table[nodes[curr].degree := None], todo, Some(mn)) && mn !in todo && mx !in todo
  {
    var d := nodes[curr].degree;
    var t := table[d := None];
    forall y | y in roots' ensures y in todo || y == mn || InTable(r, t, y) {
      if y !in todo && y != mn {
        assert InTable(nodes, table, y);
        assert nodes[y].degree != d;
        assert t[r[y].degree] == Some(y);
      }
    }
    forall e | 0 <= e < |t| && t[e].Some?
      ensures t[e].value in roots' && t[e].value in r && r[t[e].value].degree == e && t[e].value !in todo && mn != t[e].value
    {
      assert e != d && table[e] == t[e];
    }
  }

  // ---------------------------------------------------------------- the heap

  ghost function Priorities(nodes: Nodes): (m: map<nat, real>) {
    map x | x in nodes :: nodes[x].priority
  }

  ghost predicate Ranked(rank: map<nat, nat>, top: nat) {
    forall x :: x in rank ==> rank[x] <= top
  }

  ghost predicate Shape(nodes: Nodes, roots: seq<nat>, rank: map<nat, nat>, top: nat) {
    Linked(nodes, rank) && Ranked(rank, top) && Ordered(nodes, None) && Marks(nodes, None) && Rooted(nodes, roots)
  }

  lemma {:induction false} LinkKeeps(nodes: Nodes, roots: seq<nat>, rank: map<nat, nat>, top: nat, mn: nat, mx: nat)
    requires Shape(nodes, roots, rank, top) && TwoRoots(nodes, mn, mx)
    ensures AllIn(nodes[mn].kids, nodes) && mx in roots && |Without(roots, mx)| < |roots|
    ensures Shape(Link(nodes, mn, mx), Without(roots, mx), Raised(rank, mn, mx), top + 1)
    ensures forall y :: y in Without(roots, mx) <==> y in roots && y != mx
  {
    KidsThere(nodes, rank, mn);
    LinkLinks(nodes, rank, mn, mx);
    LinkOrders(nodes, rank, mn, mx);
    LinkMarks(nodes, rank, mn, mx);
    LinkRoots(nodes, mn, mx, roots);
    forall y ensures y in Without(roots, mx) <==> y in roots && y != mx { WithoutMembers(roots, mx, y); }
  }

  lemma {:induction false} FreeThere(nodes: Nodes, roots: seq<nat>, rank: map<nat, nat>, top: nat, r: Nodes)
    requires Shape(nodes, roots, rank, top) && |roots| > 0 && roots[0] in nodes
    requires r == Freed(nodes, nodes[roots[0]].kids) - {roots[0]}
    ensures AllIn(roots[1..], r) && AllIn(nodes[roots[0]].kids, r)
  {
    FreeRoots(nodes, rank, roots[0], roots);
  }

  lemma {:induction false} FreeKeeps(nodes: Nodes, roots: seq<nat>, rank: map<nat, nat>, top: nat, r: Nodes, roots': seq<nat>, rank': map<nat, nat>)
    requires Shape(nodes, roots, rank, top) && |roots| > 0 && roots[0] in nodes
    requires r == Freed(nodes, nodes[roots[0]].kids) - {roots[0]} && rank' == rank - {roots[0]}
    requires AllIn(roots[1..], r) && AllIn(nodes[roots[0]].kids, r) && roots' == MergeLists(r, roots[1..], nodes[roots[0]].kids)
    ensures Shape(r, roots', rank', top)
  {
    var m := roots[0];
    assert m in roots;
    FreeLinks(nodes, rank, m);
    FreeOrders(nodes, rank, m);
    FreeMarks(nodes, m);
    FreeRoots(nodes, rank, m, roots);
  }

  /** No two roots have one degree. */
  ghost predicate DistinctDegrees(nodes: Nodes, roots: seq<nat>) {
    forall a, b {:trigger a in roots, b in roots} :: a in roots && b in roots && a != b && a in nodes && b in nodes ==>
      nodes[a].degree != nodes[b].degree
  }

  /** A root's priority is at most that of every entry below it, so the least root is the least entry. */
  lemma {:induction false} RootBelow(nodes: Nodes, roots: seq<nat>, rank: map<nat, nat>, top: nat, x: nat)
    requires Shape(nodes, roots, rank, top) && MinFirst(nodes, roots) && x in nodes
    ensures |roots| > 0 && roots[0] in nodes && nodes[roots[0]].priority <= nodes[x].priority
    decreases top - rank[x]
  {
    if nodes[x].parent.Some? {
      RootBelow(nodes, roots, rank, top, nodes[x].parent.value);
    } else {
      assert x in roots;
      assert roots[0] in roots;
    }
  }

  /** All roots but those to do and the one in hand are no less than m. */
  ghost predicate MinOfDone(nodes: Nodes, roots: seq<nat>, todo: seq<nat>, curr: Option<nat>, m: nat) {
    m in nodes && forall r {:trigger r in roots} :: r in roots && r in nodes && r !in todo && curr != Some(r) ==> nodes[m].priority <= nodes[r].priority
  }

  lemma {:induction false} FromKeeps(nodes: Nodes, roots: seq<nat>, m: nat)
    requires Rooted(nodes, roots) && m in roots
    ensures Rooted(nodes, From(roots, m)) && forall x :: x in From(roots, m) <==> x in roots
  {
    forall x ensures x in From(roots, m) <==> x in roots {
      MemberCounts(roots, x);
      MemberCounts(From(roots, m), x);
    }
    assert Distinct(From(roots, m)) by {
      forall x ensures multiset(From(roots, m))[x] <= 1 { assert multiset(roots)[x] <= 1; }
    }
  }

  lemma {:induction false} NoneDone(nodes: Nodes, roots: seq<nat>)
    requires Rooted(nodes, roots) && |roots| > 0
    ensures roots[0] in roots && Filed(nodes, roots, [], roots, None) && MinOfDone(nodes, roots, roots, None, roots[0])
  {
    assert roots[0] in roots;
  }

  lemma {:induction false} SameTrans(a: Nodes, b: Nodes, c: Nodes)
    requires SamePriorities(a, b) && SamePriorities(b, c)
    ensures SamePriorities(a, c)
  {
  }

  /** With no root left to visit, all are in the table, one per degree. */
  lemma {:induction false} AllDone(nodes: Nodes, roots: seq<nat>, rank: map<nat, nat>, top: nat, table: Table, todo: seq<nat>, m: nat)
    requires Shape(nodes, roots, rank, top) && m in roots && |todo| == 0
    requires Filed(nodes, roots, table, todo, None) && MinOfDone(nodes, roots, todo, None, m)
    ensures Shape(nodes, From(roots, m), rank, top)
    ensures MinFirst(nodes, From(roots, m)) && DistinctDegrees(nodes, From(roots, m))
  {
    FromKeeps(nodes, roots, m);
    forall a, b | a in roots && b in roots && a != b && a in nodes && b in nodes ensures nodes[a].degree != nodes[b].degree {
      assert InTable(nodes, table, a) && InTable(nodes, table, b);
    }
  }

  lemma {:induction false} FreedCount(nodes: Nodes, m: nat)
    requires m in nodes
    ensures |Freed(nodes, nodes[m].kids) - {m}| == |nodes| - 1
    ensures Priorities(Freed(nodes, nodes[m].kids) - {m}) == Priorities(nodes) - {m}
  {
    var r := Freed(nodes, nodes[m].kids) - {m};
    assert r.Keys == nodes.Keys - {m};
    assert |r| == |r.Keys| && |nodes| == |nodes.Keys|;
  }

  lemma {:induction false} SameCount(nodes: Nodes, nodes': Nodes)
    requires SamePriorities(nodes, nodes')
    ensures |nodes'| == |nodes| && Priorities(nodes') == Priorities(nodes)
  {
    assert |nodes| == |nodes.Keys| && |nodes'| == |nodes'.Keys|;
  }

  lemma {:induction false} EmptyRoots(nodes: Nodes, roots: seq<nat>, rank: map<nat, nat>, top: nat)
    requires Shape(nodes, roots, rank, top)
    ensures roots == [] <==> nodes == map[]
  {
    if roots == [] && nodes != map[] {
      var x :| x in nodes;
      assert MinFirst(nodes, roots);
      RootBelow(nodes, roots, rank, top, x);
    }
    if roots != [] {
      assert roots[0] in roots;
    }
  }

  /** All is well but for the entry x, which may be below its parent and may have lost two children. */
  ghost predicate Cuttable(nodes: Nodes, roots: seq<nat>, rank: map<nat, nat>, top: nat, x: nat) {
    && x in nodes && Linked(nodes, rank) && Ranked(rank, top) && Rooted(nodes, roots) && MinFirst(nodes, roots)
    && Ordered(nodes, Some(x)) && Marks(nodes, Some(x))
  }

  /** Linking and roots do not depend on marks and priorities. */
  lemma {:induction false} SameLinks(nodes: Nodes, roots: seq<nat>, rank: map<nat, nat>, r: Nodes)
    requires Linked(nodes, rank) && Rooted(nodes, roots) && r.Keys == nodes.Keys
    requires forall x :: x in nodes ==> r[x].kids == nodes[x].kids && r[x].parent == nodes[x].parent && r[x].degree == nodes[x].degree
    ensures Linked(r, rank) && Rooted(r, roots)
  {
    assert Sized(r);
    assert Down(r, rank) by {
      forall x, c | x in r && c in r[x].kids ensures c in r && r[c].parent == Some(x) && rank[c] < rank[x] {
        assert c in nodes[x].kids;
      }
    }
    assert Up(r) by {
      forall c | c in r && r[c].parent.Some? ensures r[c].parent.value in r && c in r[r[c].parent.value].kids {
        assert nodes[c].parent.Some?;
      }
    }
    assert Rooted(r, roots) by {
      forall x ensures x in roots <==> x in r && r[x].parent == None {
        if x in nodes { assert r[x].parent == nodes[x].parent; }
      }
    }
  }

  lemma {:induction false} Remarked(nodes: Nodes, roots: seq<nat>, rank: map<nat, nat>, p: nat, v: bool, but: Option<nat>)
    requires p in nodes && Linked(nodes, rank) && Rooted(nodes, roots) && MinFirst(nodes, roots) && Ordered(nodes, but)
    ensures var r := nodes[p := nodes[p].(marked := v)];
      Linked(r, rank) && Rooted(r, roots) && MinFirst(r, roots) && Ordered(r, but)
  {
    SameLinks(nodes, roots, rank, nodes[p := nodes[p].(marked := v)]);
  }

  /** A root is nobody's child. */
  lemma {:induction false} RootUncounted(nodes: Nodes, rank: map<nat, nat>, x: nat, r: Nodes)
    requires Linked(nodes, rank) && x in nodes && nodes[x].parent == None && Marks(nodes, Some(x))
    requires r == nodes[x := nodes[x].(marked := false)]
    ensures Marks(r, None)
  {
    forall y, j: nat | y in r ensures Low(r, r[y].kids, None, j) <= j {
      assert MarkRule(nodes, nodes[y].kids, Some(x));
      assert x !in nodes[y].kids;
      LowFrame(nodes, Some(x), r, None, r[y].kids, j);
    }
  }

  lemma {:induction false} CutRootKeeps(nodes: Nodes, roots: seq<nat>, rank: map<nat, nat>, top: nat, x: nat, r: Nodes)
    requires Cuttable(nodes, roots, rank, top, x) && nodes[x].parent == None && r == nodes[x := nodes[x].(marked := false)]
    ensures Shape(r, roots, rank, top) && MinFirst(r, roots)
  {
    RootUncounted(nodes, rank, x, r);
    Remarked(nodes, roots, rank, x, false, Some(x));
  }

  lemma {:induction false} CutThere(nodes: Nodes, roots: seq<nat>, rank: map<nat, nat>, top: nat, x: nat, p: nat)
    requires Cuttable(nodes, roots, rank, top, x) && nodes[x].parent == Some(p)
    ensures HasParent(nodes, x, p) && rank[x] < rank[p] <= top
    ensures AllIn(roots, Cut(nodes, x, p))
  {
    ParentIsThere(nodes, rank, x);
    CutRoots(nodes, x, p, roots);
  }

  lemma {:induction false} CutKeeps(nodes: Nodes, roots: seq<nat>, rank: map<nat, nat>, top: nat, x: nat, p: nat, r: Nodes, roots': seq<nat>)
    requires Cuttable(nodes, roots, rank, top, x) && HasParent(nodes, x, p)
    requires r == Cut(nodes, x, p) && AllIn(roots, r) && roots' == MergeLists(r, roots, [x])
    ensures Cuttable(r, roots', rank, top, p)
  {
    CutLinks(nodes, rank, x, p);
    CutOrders(nodes, x, p);
    CutRoots(nodes, x, p, roots);
    CutMarks(nodes, rank, x, p);
    OrderedBut(r, Some(p));
  }

  lemma {:induction false} OrderedBut(nodes: Nodes, but: Option<nat>)
    requires Ordered(nodes, None)
    ensures Ordered(nodes, but)
  {
  }

  lemma {:induction false} MarkParentKeeps(nodes: Nodes, roots: seq<nat>, rank: map<nat, nat>, top: nat, x: nat, p: nat, r: Nodes, roots': seq<nat>, r': Nodes)
    requires Cuttable(nodes, roots, rank, top, x) && HasParent(nodes, x, p) && !nodes[p].marked
    requires r == Cut(nodes, x, p) && AllIn(roots, r) && roots' == MergeLists(r, roots, [x])
    requires r' == r[p := r[p].(marked := true)]
    ensures Shape(r', roots', rank, top) && MinFirst(r', roots')
  {
    CutLinks(nodes, rank, x, p);
    CutOrders(nodes, x, p);
    CutRoots(nodes, x, p, roots);
    CutMarks(nodes, rank, x, p);
    Remarked(r, roots', rank, p, true, None);
  }

  lemma {:induction false} MarkedSame(nodes: Nodes, x: nat, p: nat, r: Nodes)
    requires HasParent(nodes, x, p) && r == Cut(nodes, x, p)[p := Cut(nodes, x, p)[p].(marked := true)]
    ensures SamePriorities(nodes, r) && SameRoots(nodes, r) && x in r && r[x].parent == None
  {
  }

  // ------------------------------------------------- what cutting an entry cuts

  /** cutNode; ranks rise towards the roots and end at `top`. */
  ghost function Cascade(nodes: Nodes, rank: map<nat, nat>, top: nat, x: nat): (r: Nodes)
    decreases if x in rank && rank[x] <= top then top - rank[x] else 0
  {
    if x !in nodes then nodes
    else if nodes[x].parent.None? then nodes[x := nodes[x].(marked := false)]
    else
      var p := nodes[x].parent.value;
      if !(HasParent(nodes, x, p) && x in rank && p in rank && rank[x] < rank[p] <= top) then nodes
      else
        var r := Cut(nodes, x, p);
        if nodes[p].marked then Cascade(r, rank, top, p) else r[p := r[p].(marked := true)]
  }

  /** The entry had a parent and has none any more. */
  ghost predicate IsCut(nodes: Nodes, r: Nodes, c: nat) {
    c in nodes && c in r && nodes[c].parent.Some? && r[c].parent.None?
  }

  ghost predicate LostKid(nodes: Nodes, r: Nodes, c: nat) {
    exists k :: IsCut(nodes, r, k) && nodes[k].parent == Some(c)
  }

  /**
   * What cutting x does to c. Besides x exactly the marked entries that lose a child are
   * cut, and an entry that loses a child changes its mark.
   */
  ghost predicate CutOf(nodes: Nodes, r: Nodes, x: nat, c: nat)
    requires c in nodes && c in r
  {
    && r[c].parent == (if c == x || (nodes[c].marked && LostKid(nodes, r, c)) then None else nodes[c].parent)
    && r[c].marked == (if c == x then false else if LostKid(nodes, r, c) then !nodes[c].marked else nodes[c].marked)
  }

  /** Exactly x and the marked entries above it, up to the first that is not marked, are cut. */
  ghost predicate CutsChain(nodes: Nodes, r: Nodes, rank: map<nat, nat>, x: nat) {
    && r.Keys == nodes.Keys == rank.Keys && x in nodes
    && (forall c :: c in nodes ==> CutOf(nodes, r, x, c))
    && (forall c :: IsCut(nodes, r, c) ==> rank[x] <= rank[c])
  }

  lemma {:induction false} CutsNothing(nodes: Nodes, r: Nodes, rank: map<nat, nat>, x: nat)
    requires rank.Keys == nodes.Keys && x in nodes && nodes[x].parent == None && r == nodes[x := nodes[x].(marked := false)]
    ensures CutsChain(nodes, r, rank, x)
  {
    forall c ensures !IsCut(nodes, r, c) {}
  }

  lemma {:induction false} CutsOne(nodes: Nodes, r: Nodes, rank: map<nat, nat>, x: nat, p: nat)
    requires rank.Keys == nodes.Keys && HasParent(nodes, x, p) && !nodes[p].marked
    requires r == Cut(nodes, x, p)[p := Cut(nodes, x, p)[p].(marked := true)]
    ensures CutsChain(nodes, r, rank, x)
  {
    forall c ensures IsCut(nodes, r, c) <==> c == x {}
    forall c | c in nodes ensures CutOf(nodes, r, x, c) {
      assert LostKid(nodes, r, c) <==> c == p;
    }
  }

  /** Who loses a child by cutting x from p and then p with all above it. */
  lemma {:induction false} LostBoth(nodes: Nodes, r1: Nodes, r: Nodes, x: nat, p: nat, c: nat)
    requires HasParent(nodes, x, p) && r1 == Cut(nodes, x, p) && r.Keys == nodes.Keys && r[x].parent == None
    ensures LostKid(nodes, r, c) <==> c == p || LostKid(r1, r, c)
  {
    assert IsCut(nodes, r, x);
    if k :| IsCut(nodes, r, k) && nodes[k].parent == Some(c) && k != x {
      assert IsCut(r1, r, k);
    }
    if k :| IsCut(r1, r, k) && r1[k].parent == Some(c) {
      assert IsCut(nodes, r, k);
    }
  }

  /** No entry as low as x loses a child by cutting p. */
  lemma {:induction false} LowKeepsKids(r1: Nodes, r: Nodes, rank: map<nat, nat>, p: nat, c: nat)
    requires Linked(r1, rank) && CutsChain(r1, r, rank, p) && c in rank && p in rank && rank[c] <= rank[p]
    ensures !LostKid(r1, r, c)
  {
    if k :| IsCut(r1, r, k) && r1[k].parent == Some(c) {
      assert rank[p] <= rank[k];
      ParentIsThere(r1, rank, k);
    }
  }

  lemma {:induction false} CutsMore(nodes: Nodes, r1: Nodes, r: Nodes, rank: map<nat, nat>, x: nat, p: nat)
    requires rank.Keys == nodes.Keys && HasParent(nodes, x, p) && nodes[p].marked && rank[x] < rank[p]
    requires r1 == Cut(nodes, x, p) && Linked(r1, rank) && CutsChain(r1, r, rank, p)
    ensures CutsChain(nodes, r, rank, x)
  {
    LowKeepsKids(r1, r, rank, p, x);
    LowKeepsKids(r1, r, rank, p, p);
    assert CutOf(r1, r, p, x);
    forall c | c in nodes ensures CutOf(nodes, r, x, c) {
      assert CutOf(r1, r, p, c);
      LostBoth(nodes, r1, r, x, p, c);
    }
    forall c | IsCut(nodes, r, c) ensures rank[x] <= rank[c] {
      if c != x { assert IsCut(r1, r, c); }
    }
  }

  /** cutNode cuts exactly the entry and the marked entries above it, up to the first that is not marked. */
  lemma {:induction false} CascadeCuts(nodes: Nodes, rank: map<nat, nat>, top: nat, x: nat)
    requires x in nodes && Linked(nodes, rank) && Ranked(rank, top)
    ensures CutsChain(nodes, Cascade(nodes, rank, top, x), rank, x)
    decreases top - rank[x]
  {
    var r := Cascade(nodes, rank, top, x);
    if nodes[x].parent.None? {
      CutsNothing(nodes, r, rank, x);
    } else {
      var p := nodes[x].parent.value;
      ParentIsThere(nodes, rank, x);
      if nodes[p].marked {
        var r1 := Cut(nodes, x, p);
        CutLinks(nodes, rank, x, p);
        CascadeCuts(r1, rank, top, p);
        CutsMore(nodes, r1, r, rank, x, p);
      } else {
        CutsOne(nodes, r, rank, x, p);
      }
    }
  }

  // ------------------------------------------------------------ decreasing

  /** The priority v of x would be no more than that of its parent. */
  ghost predicate BelowParent(nodes: Nodes, x: nat, v: real)
    requires x in nodes
  {
    nodes[x].parent.Some? && nodes[x].parent.value in nodes && v <= nodes[nodes[x].parent.value].priority
  }

  function WithPriority(nodes: Nodes, x: nat, v: real): (r: Nodes)
    requires x in nodes
  {
    nodes[x := nodes[x].(priority := v)]
  }

  /** The entry x with another priority, no higher. */
  lemma {:induction false} LoweredCuttable(nodes: Nodes, roots: seq<nat>, rank: map<nat, nat>, top: nat, x: nat, v: real, r: Nodes)
    requires Shape(nodes, roots, rank, top) && MinFirst(nodes, roots) && x in nodes && v <= nodes[x].priority
    requires r == nodes[x := nodes[x].(priority := v)]
    ensures Linked(r, rank) && Rooted(r, roots) && Ordered(r, Some(x)) && Marks(r, Some(x)) && Marks(r, None)
    ensures nodes[x].parent.Some? ==> Cuttable(r, roots, rank, top, x)
    ensures (nodes[x].parent.Some? ==> nodes[x].parent.value in r && r[nodes[x].parent.value].priority <= v) ==> Shape(r, roots, rank, top)
  {
    SameLinks(nodes, roots, rank, r);
    forall y, j: nat | y in r ensures Low(r, r[y].kids, None, j) <= j && Low(r, r[y].kids, Some(x), j) <= j {
      assert MarkRule(nodes, nodes[y].kids, None);
      LowFrame(nodes, None, r, None, r[y].kids, j);
      LowFrame(nodes, None, r, Some(x), r[y].kids, j);
    }
  }

  /** After a decrease of x, heap.min becomes x if x is no higher. */
  lemma {:induction false} TurnKeeps(nodes: Nodes, roots: seq<nat>, rank: map<nat, nat>, top: nat, x: nat, roots': seq<nat>)
    requires Shape(nodes, roots, rank, top) && x in roots && x in nodes && roots[0] in nodes
    requires forall y {:trigger y in roots} :: y in roots && y != x && y in nodes ==>
      nodes[roots[0]].priority <= nodes[y].priority || nodes[x].priority <= nodes[y].priority
    requires nodes[x].priority <= nodes[roots[0]].priority && roots' == From(roots, x)
    ensures Shape(nodes, roots', rank, top) && MinFirst(nodes, roots') && roots' != [] && roots'[0] == x
  {
    FromKeeps(nodes, roots, x);
  }

  lemma {:induction false} LoweredPriorities(nodes: Nodes, x: nat, v: real, r: Nodes, r': Nodes)
    requires x in nodes && r == nodes[x := nodes[x].(priority := v)] && SamePriorities(r, r')
    ensures Priorities(r') == Priorities(nodes)[x := v] && |r'| == |nodes|
  {
    SameCount(r, r');
    assert r.Keys == nodes.Keys;
    assert |r| == |r.Keys| && |nodes| == |nodes.Keys|;
  }

  /** A root that got lower leaves the minimum first, unless it is the minimum now. */
  lemma {:induction false} LoweredRoot(nodes: Nodes, roots: seq<nat>, x: nat, v: real, r: Nodes)
    requires Rooted(nodes, roots) && MinFirst(nodes, roots) && x in nodes && nodes[x].parent == None
    requires r == nodes[x := nodes[x].(priority := v)] && v <= nodes[x].priority
    ensures x in roots && roots[0] in nodes
    ensures forall y {:trigger y in roots} :: y in roots && y != x && y in r ==>
      r[roots[0]].priority <= r[y].priority || r[x].priority <= r[y].priority
    ensures r[roots[0]].priority <= v ==> MinFirst(r, roots)
  {
    assert x in roots;
    assert roots[0] in roots;
  }

  /** No other entry is below v. */
  ghost predicate NoneLower(nodes: Nodes, x: nat, v: real) {
    forall y :: y in nodes && y != x ==> v <= nodes[y].priority
  }

  lemma {:induction false} LowestIs(nodes0: Nodes, x: nat, v: real, nodes: Nodes, r: nat)
    requires x in nodes0 && Priorities(nodes) == Priorities(nodes0)[x := v] && r in nodes
    ensures x in nodes && nodes[x].priority == v && (NoneLower(nodes0, x, v) ==> v <= nodes[r].priority)
  {
    assert Priorities(nodes)[x] == v;
    assert Priorities(nodes)[r] == Priorities(nodes0)[x := v][r];
  }

  /** The least root is first, but for x, which may be lower. */
  ghost predicate Turnable(nodes: Nodes, roots: seq<nat>, x: nat) {
    && x in roots && x in nodes && |roots| > 0 && roots[0] in nodes
    && (forall y {:trigger y in roots} :: y in roots && y != x && y in nodes ==>
          nodes[roots[0]].priority <= nodes[y].priority || nodes[x].priority <= nodes[y].priority)
    && (nodes[roots[0]].priority <= nodes[x].priority ==> MinFirst(nodes, roots))
  }

  lemma {:induction false} CutIsTurnable(nodes: Nodes, roots: seq<nat>, x: nat)
    requires Rooted(nodes, roots) && MinFirst(nodes, roots) && x in nodes && nodes[x].parent == None
    ensures Turnable(nodes, roots, x)
  {
    assert x in roots;
    assert roots[0] in roots;
  }

  lemma {:induction false} FirstThere(nodes: Nodes, roots: seq<nat>)
    requires Rooted(nodes, roots) && |roots| > 0
    ensures roots[0] in nodes
  {
    assert roots[0] in roots;
  }

  lemma {:induction false} LoweredRootShape(nodes: Nodes, roots: seq<nat>, rank: map<nat, nat>, top: nat, x: nat, v: real, r: Nodes)
    requires Shape(nodes, roots, rank, top) && MinFirst(nodes, roots) && x in nodes && v <= nodes[x].priority && nodes[x].parent == None
    requires r == nodes[x := nodes[x].(priority := v)]
    ensures Shape(r, roots, rank, top) && Turnable(r, roots, x)
  {
    LoweredCuttable(nodes, roots, rank, top, x, v, r);
    LoweredRoot(nodes, roots, x, v, r);
  }

  lemma {:induction false} LoweredChild(nodes: Nodes, roots: seq<nat>, rank: map<nat, nat>, top: nat, x: nat, v: real, r: Nodes)
    requires Shape(nodes, roots, rank, top) && MinFirst(nodes, roots) && x in nodes && v <= nodes[x].priority && nodes[x].parent.Some?
    requires r == nodes[x := nodes[x].(priority := v)]
    ensures Cuttable(r, roots, rank, top, x)
  {
    LoweredCuttable(nodes, roots, rank, top, x, v, r);
  }

  /** x is below the parent p, which is not below the minimum. */
  lemma {:induction false} AboveMin(nodes: Nodes, roots: seq<nat>, rank: map<nat, nat>, top: nat, x: nat, v: real, r: Nodes)
    requires Shape(nodes, roots, rank, top) && MinFirst(nodes, roots) && x in nodes && nodes[x].parent.Some? && v <= nodes[x].priority
    requires r == nodes[x := nodes[x].(priority := v)]
    ensures var p := nodes[x].parent.value;
      && p in nodes && p != x && |roots| > 0 && roots[0] in nodes && roots[0] != x
      && nodes[roots[0]].priority <= nodes[p].priority
      && (nodes[p].priority < v ==> Shape(r, roots, rank, top) && MinFirst(r, roots))
  {
    var p := nodes[x].parent.value;
    ParentIsThere(nodes, rank, x);
    RootBelow(nodes, roots, rank, top, p);
    assert x !in roots && roots[0] in roots;
    LoweredCuttable(nodes, roots, rank, top, x, v, r);
  }

  /** -math.MaxFloat64 */
  const Lowest: real := -(Power(1024) - Power(971))

  function Power(n: nat): (p: real) { if n == 0 then 1.0 else 2.0 * Power(n - 1) }

  lemma {:induction false} DeletedWhat(nodes0: Nodes, nodes1: Nodes, nodes2: Nodes, x: nat, m: nat)
    requires x in nodes0 && Priorities(nodes1) == Priorities(nodes0)[x := Lowest]
    requires m in nodes1 && Priorities(nodes2) == Priorities(nodes1) - {m}
    requires forall y :: y in nodes1 ==> nodes1[m].priority <= nodes1[y].priority
    requires NoneLower(nodes0, x, Lowest) ==> m == x
    ensures m == x <==> NoneLower(nodes0, x, Lowest)
    ensures Priorities(nodes2) == Priorities(nodes0) - {x} <==> m == x
    ensures |nodes2| == |nodes0| - 1 && m in nodes0 && Priorities(nodes2) == Priorities(nodes0)[x := Lowest] - {m}
  {
    DeletedKeys(nodes0, nodes1, nodes2, x, m);
    LeastIs(nodes0, nodes1, x, m);
    if m == x {
      assert Priorities(nodes2) == Priorities(nodes0) - {x};
    } else {
      assert x in Priorities(nodes2);
    }
  }

  lemma {:induction false} DeletedKeys(nodes0: Nodes, nodes1: Nodes, nodes2: Nodes, x: nat, m: nat)
    requires x in nodes0 && Priorities(nodes1) == Priorities(nodes0)[x := Lowest]
    requires m in nodes1 && Priorities(nodes2) == Priorities(nodes1) - {m}
    ensures nodes1.Keys == nodes0.Keys && |nodes2| == |nodes0| - 1
  {
    assert nodes1.Keys == Priorities(nodes1).Keys && nodes0.Keys == Priorities(nodes0).Keys && nodes2.Keys == Priorities(nodes2).Keys;
    assert nodes1.Keys == nodes0.Keys && nodes2.Keys == nodes1.Keys - {m};
    assert |nodes0| == |nodes0.Keys| && |nodes2| == |nodes2.Keys|;
  }

  /** With x at Lowest, a least entry is x only if no other is lower. */
  lemma {:induction false} LeastIs(nodes0: Nodes, nodes1: Nodes, x: nat, m: nat)
    requires x in nodes0 && nodes1.Keys == nodes0.Keys && Priorities(nodes1) == Priorities(nodes0)[x := Lowest] && m in nodes1
    requires forall y :: y in nodes1 ==> nodes1[m].priority <= nodes1[y].priority
    ensures m == x ==> NoneLower(nodes0, x, Lowest)
  {
    forall y | y in nodes0 ensures nodes1[y].priority == if y == x then Lowest else nodes0[y].priority {
      assert Priorities(nodes1)[y] == Priorities(nodes0)[x := Lowest][y];
    }
  }

  /**
   * Delete of an entry x that is itself below Lowest raises it, which keeps the heap order
   * exactly if no child of x is below Lowest.
   */
  lemma {:induction false} RaiseKeepsOrderIff(nodes: Nodes, rank: map<nat, nat>, x: nat)
    requires Linked(nodes, rank) && Ordered(nodes, None) && x in nodes && nodes[x].priority < Lowest
    requires nodes[x].parent == None
    ensures Ordered(nodes[x := nodes[x].(priority := Lowest)], None) <==>
      forall c :: c in nodes[x].kids ==> c in nodes && Lowest <= nodes[c].priority
  {
    var r := nodes[x := nodes[x].(priority := Lowest)];
    if Ordered(r, None) {
      forall c | c in nodes[x].kids ensures c in nodes && Lowest <= nodes[c].priority {
        assert nodes[c].parent == Some(x);
        assert r[c].parent == Some(x);
      }
    }
  }

  lemma {:induction false} SingletonThere(nodes: Nodes, roots: seq<nat>, x: nat, r: Nodes)
    requires Rooted(nodes, roots) && r.Keys == nodes.Keys + {x}
    ensures AllIn(roots, r)
  {
    assert forall i :: 0 <= i < |roots| ==> roots[i] in roots;
  }

  lemma {:induction false} SingletonShape(x: nat, v: real, single: Nodes)
    requires single == map[x := Node(v, 0, false, None, [])]
    ensures Shape(single, [x], map[x := 0], 0) && MinFirst(single, [x])
  {
    assert Linked(single, map[x := 0]);
    assert Marks(single, None);
  }

  lemma {:induction false} SingletonKeeps(nodes: Nodes, roots: seq<nat>, rank: map<nat, nat>, top: nat, x: nat, r: Nodes, roots': seq<nat>, rank': map<nat, nat>)
    requires Shape(nodes, roots, rank, top) && MinFirst(nodes, roots) && x !in nodes
    requires x in r && r == nodes[x := Node(r[x].priority, 0, false, None, [])] && rank' == rank[x := 0]
    requires AllIn(roots, r) && roots' == MergeLists(r, roots, [x])
    ensures Shape(r, roots', rank', top) && MinFirst(r, roots')
    ensures |r| == |nodes| + 1 && Priorities(r) == Priorities(nodes)[x := r[x].priority]
  {
    var single: Nodes := map[x := r[x]];
    SingletonMaps(nodes, rank, x, r, rank');
    SingletonShape(x, r[x].priority, single);
    MergeKeeps(nodes, roots, rank, top, single, [x], map[x := 0], 0, r, rank', top);
  }

  lemma {:induction false} SingletonMaps(nodes: Nodes, rank: map<nat, nat>, x: nat, r: Nodes, rank': map<nat, nat>)
    requires x !in nodes && x in r && r == nodes[x := r[x]] && rank' == rank[x := 0]
    ensures r == nodes + map[x := r[x]] && rank' == rank + map[x := 0]
    ensures Priorities(r) == Priorities(nodes)[x := r[x].priority]
  {
  }

  /** Two heaps with no entry in common, side by side. */
  lemma {:induction false} MergeKeeps(a: Nodes, ra: seq<nat>, ka: map<nat, nat>, ta: nat, b: Nodes, rb: seq<nat>, kb: map<nat, nat>, tb: nat,
                   r: Nodes, rank: map<nat, nat>, top: nat)
    requires Shape(a, ra, ka, ta) && Shape(b, rb, kb, tb) && MinFirst(a, ra) && MinFirst(b, rb) && a.Keys !! b.Keys
    requires r == a + b && rank == ka + kb && ta <= top && tb <= top
    ensures AllIn(ra, r) && AllIn(rb, r)
    ensures Shape(r, MergeLists(r, ra, rb), rank, top) && MinFirst(r, MergeLists(r, ra, rb))
    ensures |r| == |a| + |b|
  {
    MergeRoots(a, ra, b, rb);
    MergeLinks(a, ka, b, kb);
    MergeMarks(a, b, ka, kb);
    MergeOrders(a, ka, b, kb);
    MergeCounts(a, b);
    MergeRanked(ka, ta, kb, tb, top);
  }

  lemma {:induction false} MergeRanked(ka: map<nat, nat>, ta: nat, kb: map<nat, nat>, tb: nat, top: nat)
    requires Ranked(ka, ta) && Ranked(kb, tb) && ta <= top && tb <= top
    ensures Ranked(ka + kb, top)
  {
  }

  lemma {:induction false} MergeCounts(a: Nodes, b: Nodes)
    requires a.Keys !! b.Keys
    ensures |a + b| == |a| + |b|
  {
    assert (a + b).Keys == a.Keys + b.Keys;
    assert |a + b| == |(a + b).Keys| && |a| == |a.Keys| && |b| == |b.Keys|;
  }

  lemma {:induction false} MergePriorities(a: Nodes, b: Nodes)
    ensures Priorities(a + b) == Priorities(a) + Priorities(b)
  {
    var p, q := Priorities(a + b), Priorities(a) + Priorities(b);
    assert p.Keys == q.Keys;
    forall x | x in p ensures p[x] == q[x] {}
  }

  lemma {:induction false} MergeOrders(a: Nodes, ka: map<nat, nat>, b: Nodes, kb: map<nat, nat>)
    requires Linked(a, ka) && Linked(b, kb) && a.Keys !! b.Keys && Ordered(a, None) && Ordered(b, None)
    ensures Ordered(a + b, None)
  {
  }

  lemma {:induction false} MergeRoots(a: Nodes, ra: seq<nat>, b: Nodes, rb: seq<nat>)
    requires Rooted(a, ra) && Rooted(b, rb) && MinFirst(a, ra) && MinFirst(b, rb) && a.Keys !! b.Keys
    ensures AllIn(ra, a + b) && AllIn(rb, a + b)
    ensures Rooted(a + b, MergeLists(a + b, ra, rb)) && MinFirst(a + b, MergeLists(a + b, ra, rb))
  {
    assert forall i :: 0 <= i < |ra| ==> ra[i] in ra;
    assert forall i :: 0 <= i < |rb| ==> rb[i] in rb;
    MergeAll(a + b, ra, rb);
  }

  lemma {:induction false} MergeLinks(a: Nodes, ka: map<nat, nat>, b: Nodes, kb: map<nat, nat>)
    requires Linked(a, ka) && Linked(b, kb) && a.Keys !! b.Keys
    ensures Linked(a + b, ka + kb)
  {
  }

  lemma {:induction false} MergeMarks(a: Nodes, b: Nodes, ka: map<nat, nat>, kb: map<nat, nat>)
    requires Linked(a, ka) && Linked(b, kb) && Marks(a, None) && Marks(b, None) && a.Keys !! b.Keys
    ensures Marks(a + b, None)
  {
    var r := a + b;
    forall y, j: nat | y in r ensures Low(r, r[y].kids, None, j) <= j {
      if y in a {
        assert MarkRule(a, a[y].kids, None);
        LowFrame(a, None, r, None, a[y].kids, j);
      } else {
        assert MarkRule(b, b[y].kids, None);
        LowFrame(b, None, r, None, b[y].kids, j);
      }
    }
  }

  // --------------------------------------------------------------- tree sizes

  function Fib(n: nat): (f: nat) { if n < 2 then n else Fib(n - 1) + Fib(n - 2) }

  /** The entries of the tree below x, x among them. */
  ghost function Tree(nodes: Nodes, rank: map<nat, nat>, x: nat): (t: set<nat>)
    requires Linked(nodes, rank) && x in nodes
    decreases rank[x], 1, 0
  {
    KidsThere(nodes, rank, x);
    {x} + Forest(nodes, rank, x, nodes[x].kids)
  }

  /** The entries below some of the children of x. */
  ghost function Forest(nodes: Nodes, rank: map<nat, nat>, x: nat, ks: seq<nat>): (t: set<nat>)
    requires Linked(nodes, rank) && x in nodes && (forall i :: 0 <= i < |ks| ==> ks[i] in nodes[x].kids)
    decreases rank[x], 0, |ks|
  {
    if ks == [] then {} else assert ks[0] in nodes[x].kids; Tree(nodes, rank, ks[0]) + Forest(nodes, rank, x, ks[1..])
  }

  /** An entry of a tree other than its root has its parent there, and ranks stay below the root's. */
  lemma {:induction false} TreeParent(nodes: Nodes, rank: map<nat, nat>, x: nat, y: nat)
    requires Linked(nodes, rank) && x in nodes && y in Tree(nodes, rank, x)
    ensures y in nodes && rank[y] <= rank[x]
    ensures y != x ==> nodes[y].parent.Some? && nodes[y].parent.value in Tree(nodes, rank, x)
    decreases rank[x], 1, 0
  {
    KidsThere(nodes, rank, x);
    if y != x { ForestParent(nodes, rank, x, nodes[x].kids, y); }
  }

  lemma {:induction false} ForestParent(nodes: Nodes, rank: map<nat, nat>, x: nat, ks: seq<nat>, y: nat)
    requires Linked(nodes, rank) && x in nodes && (forall i :: 0 <= i < |ks| ==> ks[i] in nodes[x].kids)
    requires y in Forest(nodes, rank, x, ks)
    ensures y in nodes && rank[y] < rank[x]
    ensures nodes[y].parent.Some? && (nodes[y].parent.value == x || nodes[y].parent.value in Forest(nodes, rank, x, ks))
    decreases rank[x], 0, |ks|
  {
    assert ks[0] in nodes[x].kids;
    if y in Tree(nodes, rank, ks[0]) {
      TreeParent(nodes, rank, ks[0], y);
    } else {
      ForestParent(nodes, rank, x, ks[1..], y);
    }
  }

  /** Trees of two children have no entry in common. */
  lemma {:induction false} TreesApart(nodes: Nodes, rank: map<nat, nat>, top: nat, x: nat, a: nat, b: nat, y: nat)
    requires Linked(nodes, rank) && Ranked(rank, top) && x in nodes && a in nodes[x].kids && b in nodes[x].kids && a != b
    requires y in Tree(nodes, rank, a)
    ensures y !in Tree(nodes, rank, b)
    decreases top - if y in rank then rank[y] else 0
  {
    if y in Tree(nodes, rank, b) {
      TreeParent(nodes, rank, a, y);
      TreeParent(nodes, rank, b, y);
      if y == a {
        TreeParent(nodes, rank, b, x);
      } else if y == b {
        TreeParent(nodes, rank, a, x);
      } else {
        var p := nodes[y].parent.value;
        ParentIsThere(nodes, rank, y);
        TreesApart(nodes, rank, top, x, a, b, p);
      }
    }
  }

  lemma {:induction false} ForestApart(nodes: Nodes, rank: map<nat, nat>, top: nat, x: nat, a: nat, ks: seq<nat>, y: nat)
    requires Linked(nodes, rank) && Ranked(rank, top) && x in nodes && a in nodes[x].kids && a !in ks
    requires forall i :: 0 <= i < |ks| ==> ks[i] in nodes[x].kids
    requires y in Tree(nodes, rank, a)
    ensures y !in Forest(nodes, rank, x, ks)
  {
    if ks != [] {
      assert ks[0] in ks;
      TreesApart(nodes, rank, top, x, a, ks[0], y);
      ForestApart(nodes, rank, top, x, a, ks[1..], y);
    }
  }

  /** The sum of the tree sizes of some of the children. */
  ghost function Total(nodes: Nodes, rank: map<nat, nat>, x: nat, ks: seq<nat>): (n: nat)
    requires Linked(nodes, rank) && x in nodes && (forall i :: 0 <= i < |ks| ==> ks[i] in nodes[x].kids)
  {
    if ks == [] then 0 else assert ks[0] in nodes[x].kids; |Tree(nodes, rank, ks[0])| + Total(nodes, rank, x, ks[1..])
  }

  lemma {:induction false} ForestSize(nodes: Nodes, rank: map<nat, nat>, top: nat, x: nat, ks: seq<nat>)
    requires Linked(nodes, rank) && Ranked(rank, top) && x in nodes && Distinct(ks)
    requires forall i :: 0 <= i < |ks| ==> ks[i] in nodes[x].kids
    ensures |Forest(nodes, rank, x, ks)| == Total(nodes, rank, x, ks)
  {
    if ks != [] {
      RestMembers(ks);
      assert ks[0] in nodes[x].kids;
      var t, f := Tree(nodes, rank, ks[0]), Forest(nodes, rank, x, ks[1..]);
      forall y | y in t ensures y !in f { ForestApart(nodes, rank, top, x, ks[0], ks[1..], y); }
      assert |t + f| == |t| + |f|;
      ForestSize(nodes, rank, top, x, ks[1..]);
    }
  }

  lemma {:induction false} TreeSize(nodes: Nodes, rank: map<nat, nat>, top: nat, x: nat)
    requires Linked(nodes, rank) && Ranked(rank, top) && x in nodes
    ensures forall i :: 0 <= i < |nodes[x].kids| ==> nodes[x].kids[i] in nodes[x].kids
    ensures |Tree(nodes, rank, x)| == 1 + Total(nodes, rank, x, nodes[x].kids)
  {
    var ks := nodes[x].kids;
    ForestSize(nodes, rank, top, x, ks);
    if x in Forest(nodes, rank, x, ks) { ForestParent(nodes, rank, x, ks, x); }
    assert |{x} + Forest(nodes, rank, x, ks)| == 1 + |Forest(nodes, rank, x, ks)|;
  }

  lemma {:induction false} FibGrows(a: nat, b: nat)
    requires 1 <= a <= b
    ensures Fib(a) <= Fib(b)
  {
    if a < b { FibGrows(a, b - 1); }
  }

  /** Some child brought at least j if fewer than all brought less. */
  lemma {:induction false} SomeHigh(nodes: Nodes, ks: seq<nat>, j: int) returns (i: nat)
    requires AllIn(ks, nodes) && Low(nodes, ks, None, j) < |ks|
    ensures i < |ks| && Brought(nodes[ks[i]]) >= j
  {
    if Brought(nodes[ks[0]]) >= j {
      i := 0;
    } else {
      assert AllIn(ks[1..], nodes);
      i := SomeHigh(nodes, ks[1..], j);
      i := i + 1;
    }
  }

  lemma {:induction false} TotalSplits(nodes: Nodes, rank: map<nat, nat>, x: nat, a: seq<nat>, b: seq<nat>)
    requires Linked(nodes, rank) && x in nodes
    requires (forall i :: 0 <= i < |a| ==> a[i] in nodes[x].kids) && (forall i :: 0 <= i < |b| ==> b[i] in nodes[x].kids)
    ensures forall i :: 0 <= i < |a + b| ==> (a + b)[i] in nodes[x].kids
    ensures Total(nodes, rank, x, a + b) == Total(nodes, rank, x, a) + Total(nodes, rank, x, b)
  {
    if a == [] {
      assert a + b == b;
    } else {
      assert (a + b)[1..] == a[1..] + b;
      TotalSplits(nodes, rank, x, a[1..], b);
    }
  }

  /** The children's trees add up to the one at i and the rest. */
  lemma {:induction false} TotalWithout(nodes: Nodes, rank: map<nat, nat>, x: nat, ks: seq<nat>, i: nat)
    requires Linked(nodes, rank) && x in nodes && i < |ks| && (forall i :: 0 <= i < |ks| ==> ks[i] in nodes[x].kids)
    ensures var r := ks[..i] + ks[i + 1..];
      && (forall n :: 0 <= n < |r| ==> r[n] in nodes[x].kids)
      && ks[i] in nodes
      && Total(nodes, rank, x, ks) == |Tree(nodes, rank, ks[i])| + Total(nodes, rank, x, r)
  {
    assert ks[i] in nodes[x].kids;
    TotalSplits(nodes, rank, x, ks[..i], ks[i + 1..]);
    TotalSplits(nodes, rank, x, ks[..i], ks[i..]);
    assert ks == ks[..i] + ks[i..] && ks[i..][1..] == ks[i + 1..];
  }

  lemma {:induction false} RuleWithout(nodes: Nodes, ks: seq<nat>, i: nat)
    requires MarkRule(nodes, ks, None) && i < |ks|
    ensures MarkRule(nodes, ks[..i] + ks[i + 1..], None)
  {
    var rest := ks[..i] + ks[i + 1..];
    forall j: nat ensures Low(nodes, rest, None, j) <= j {
      LowConcat(nodes, ks[..i], ks[i + 1..], None, j);
      LowConcat(nodes, ks[..i], ks[i..], None, j);
      assert ks == ks[..i] + ks[i..] && ks[i..][1..] == ks[i + 1..];
    }
  }

  /** The mark rule makes the children's trees add up to Fib(|ks| + 2) - 1. */
  lemma {:induction false} TotalAtLeastFib(nodes: Nodes, rank: map<nat, nat>, top: nat, x: nat, ks: seq<nat>)
    requires Linked(nodes, rank) && Ranked(rank, top) && Marks(nodes, None) && x in nodes
    requires (forall i :: 0 <= i < |ks| ==> ks[i] in nodes[x].kids) && MarkRule(nodes, ks, None)
    ensures Total(nodes, rank, x, ks) + 1 >= Fib(|ks| + 2)
    decreases rank[x], 0, |ks|
  {
    var n := |ks|;
    if n > 0 {
      var i := HighChild(nodes, rank, x, ks);
      TreeAtLeastFib(nodes, rank, top, ks[i]);
      FibGrows(if n >= 2 then n else 1, nodes[ks[i]].degree + 2);
      TotalWithout(nodes, rank, x, ks, i);
      RuleWithout(nodes, ks, i);
      TotalAtLeastFib(nodes, rank, top, x, ks[..i] + ks[i + 1..]);
    }
  }

  /** By the mark rule some child brought all but one of its siblings' number. */
  lemma {:induction false} HighChild(nodes: Nodes, rank: map<nat, nat>, x: nat, ks: seq<nat>) returns (i: nat)
    requires Linked(nodes, rank) && x in nodes && |ks| > 0 && MarkRule(nodes, ks, None)
    requires forall i :: 0 <= i < |ks| ==> ks[i] in nodes[x].kids
    ensures i < |ks| && ks[i] in nodes && rank[ks[i]] < rank[x] && nodes[ks[i]].degree + 1 >= |ks| - 1
  {
    forall j | 0 <= j < |ks| ensures ks[j] in nodes { assert ks[j] in nodes[x].kids; }
    assert Low(nodes, ks, None, |ks| - 1) <= |ks| - 1;
    i := SomeHigh(nodes, ks, |ks| - 1);
    assert ks[i] in nodes[x].kids;
  }

  /** A tree whose root has degree d has at least Fib(d + 2) entries. */
  lemma {:induction false} TreeAtLeastFib(nodes: Nodes, rank: map<nat, nat>, top: nat, x: nat)
    requires Linked(nodes, rank) && Ranked(rank, top) && Marks(nodes, None) && x in nodes
    ensures nodes[x].degree >= 0 && |Tree(nodes, rank, x)| >= Fib(nodes[x].degree + 2)
    decreases rank[x], 1, 0
  {
    TreeSize(nodes, rank, top, x);
    assert MarkRule(nodes, nodes[x].kids, None);
    TotalAtLeastFib(nodes, rank, top, x, nodes[x].kids);
  }

  /** So no degree in a heap of n entries is so high that Fib(degree + 2) exceeds n. */
  lemma {:induction false} DegreeBound(nodes: Nodes, roots: seq<nat>, rank: map<nat, nat>, top: nat, x: nat)
    requires Shape(nodes, roots, rank, top) && x in nodes
    ensures nodes[x].degree >= 0 && Fib(nodes[x].degree + 2) <= |nodes|
  {
    TreeAtLeastFib(nodes, rank, top, x);
    forall y | y in Tree(nodes, rank, x) ensures y in nodes { TreeParent(nodes, rank, x, y); }
    SubsetSize(Tree(nodes, rank, x), nodes.Keys);
    assert |nodes| == |nodes.Keys|;
  }

  function Pow2(n: nat): (p: nat) { if n == 0 then 1 else 2 * Pow2(n - 1) }

  lemma {:induction false} FibDoubles(n: nat)
    ensures Pow2(n / 2) <= Fib(n + 2)
  {
    if n >= 2 {
      FibDoubles(n - 2);
      assert Fib(n + 2) == Fib(n + 1) + Fib(n) && Fib(n + 1) == Fib(n) + Fib(n - 1);
      assert n / 2 == (n - 2) / 2 + 1;
    }
  }

  /** Degrees are logarithmic: n entries allow a degree of at most twice the logarithm of n. */
  lemma {:induction false} DegreeIsLogarithmic(nodes: Nodes, roots: seq<nat>, rank: map<nat, nat>, top: nat, x: nat)
    requires Shape(nodes, roots, rank, top) && x in nodes
    ensures nodes[x].degree >= 0 && Pow2(nodes[x].degree / 2) <= |nodes|
  {
    DegreeBound(nodes, roots, rank, top, x);
    FibDoubles(nodes[x].degree);
  }
}
