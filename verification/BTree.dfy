/**
 * The B-tree of btree/btree.go: insertion with pre-emptive splitting, deletion with
 * pre-emptive stealing and merging. Nodes are values; the tree object replaces its root.
 */
module BTree {
  import opened Basics

  /** A node: its items, and one more child than items unless it is a leaf. */
  datatype Node = Node(items: seq<int>, children: seq<Node>)

  // ------------------------------------------------------------- contents

  /** The items of a subtree in order. */
  ghost function Flat(n: Node): (s: seq<int>)
    decreases n, 1
  {
    if |n.children| == |n.items| + 1 then Weave(n.children, n.items) else n.items
  }

  /** Children with one item between each two neighbours. */
  ghost function Weave(cs: seq<Node>, items: seq<int>): (s: seq<int>)
    requires |cs| == |items| + 1
    decreases cs, 0
  {
    if items == [] then Flat(cs[0]) else Flat(cs[0]) + [items[0]] + Weave(cs[1..], items[1..])
  }

  lemma {:induction false} WeaveConcat(cs1: seq<Node>, items1: seq<int>, m: int, cs2: seq<Node>, items2: seq<int>)
    requires |cs1| == |items1| + 1 && |cs2| == |items2| + 1
    ensures Weave(cs1 + cs2, items1 + [m] + items2) == Weave(cs1, items1) + [m] + Weave(cs2, items2)
    decreases |items1|
  {
    var cs, items := cs1 + cs2, items1 + [m] + items2;
    if items1 == [] {
      assert cs[1..] == cs2 && items[1..] == items2;
    } else {
      assert cs[1..] == cs1[1..] + cs2 && items[1..] == items1[1..] + [m] + items2;
      WeaveConcat(cs1[1..], items1[1..], m, cs2, items2);
      assert Flat(cs[0]) + [items[0]] + (Weave(cs1[1..], items1[1..]) + [m] + Weave(cs2, items2))
          == Flat(cs[0]) + [items[0]] + Weave(cs1[1..], items1[1..]) + [m] + Weave(cs2, items2);
    }
  }

  /** What comes before child `i`: the children and items to its left. */
  ghost function Before(cs: seq<Node>, items: seq<int>, i: nat): (s: seq<int>)
    requires |cs| == |items| + 1 && i <= |items|
  {
    if i == 0 then [] else Weave(cs[..i], items[..i - 1]) + [items[i - 1]]
  }

  /** What comes after child `i`. */
  ghost function After(cs: seq<Node>, items: seq<int>, i: nat): (s: seq<int>)
    requires |cs| == |items| + 1 && i <= |items|
  {
    if i == |items| then [] else [items[i]] + Weave(cs[i + 1..], items[i + 1..])
  }

  lemma {:induction false} WeaveFrom(cs: seq<Node>, items: seq<int>, i: nat)
    requires |cs| == |items| + 1 && i <= |items|
    ensures Weave(cs[i..], items[i..]) == Flat(cs[i]) + After(cs, items, i)
  {
    if i < |items| {
      assert cs[i..][1..] == cs[i + 1..] && items[i..][1..] == items[i + 1..];
      Reassociate(Flat(cs[i]), [items[i]], Weave(cs[i + 1..], items[i + 1..]));
    }
  }

  lemma {:induction false} Reassociate(a: seq<int>, b: seq<int>, c: seq<int>)
    ensures a + b + c == a + (b + c)
  {
  }

  lemma {:induction false} WeaveAt(cs: seq<Node>, items: seq<int>, i: nat)
    requires |cs| == |items| + 1 && 0 < i <= |items|
    ensures Weave(cs, items) == Weave(cs[..i], items[..i - 1]) + [items[i - 1]] + Weave(cs[i..], items[i..])
  {
    var cs1, items1, m, cs2, items2 := cs[..i], items[..i - 1], items[i - 1], cs[i..], items[i..];
    assert cs == cs1 + cs2 && items == items1 + [m] + items2;
    WeaveConcat(cs1, items1, m, cs2, items2);
  }

  /** A node's contents as seen from one of its children. */
  lemma {:induction false} Around(cs: seq<Node>, items: seq<int>, i: nat)
    requires |cs| == |items| + 1 && i <= |items|
    ensures Weave(cs, items) == Before(cs, items, i) + Flat(cs[i]) + After(cs, items, i)
  {
    WeaveFrom(cs, items, i);
    Reassociate(Before(cs, items, i), Flat(cs[i]), After(cs, items, i));
    if i > 0 {
      WeaveAt(cs, items, i);
    } else {
      assert cs[i..] == cs && items[i..] == items;
    }
  }

  // ---------------------------------------------------- sorted sequences

  /** Strictly increasing. */
  ghost predicate Inc(s: seq<int>) {
    |s| < 2 || (s[0] < s[1] && Inc(s[1..]))
  }

  ghost predicate AllBelow(s: seq<int>, k: int) {
    forall i :: 0 <= i < |s| ==> s[i] < k
  }

  ghost predicate AllAbove(k: int, s: seq<int>) {
    forall i :: 0 <= i < |s| ==> k < s[i]
  }

  lemma {:induction false} IncHead(s: seq<int>)
    requires Inc(s) && s != []
    ensures AllAbove(s[0], s[1..])
  {
    if |s| >= 2 { IncHead(s[1..]); }
  }

  lemma {:induction false} IncParts(a: seq<int>, b: seq<int>)
    requires Inc(a + b)
    ensures Inc(a) && Inc(b)
    ensures b != [] ==> AllBelow(a, b[0])
    ensures a != [] ==> AllAbove(a[|a| - 1], b)
  {
    if a == [] {
      assert a + b == b;
    } else {
      assert (a + b)[1..] == a[1..] + b;
      IncHead(a + b);
      IncParts(a[1..], b);
      assert |a| >= 2 ==> (a + b)[1] == a[1];
      assert |a| == 1 && b != [] ==> (a + b)[1] == b[0];
    }
  }

  lemma {:induction false} IncJoin(a: seq<int>, b: seq<int>)
    requires Inc(a) && Inc(b)
    requires b != [] ==> AllBelow(a, b[0])
    ensures Inc(a + b)
  {
    if a == [] {
      assert a + b == b;
    } else {
      IncJoin(a[1..], b);
      assert (a + b)[1..] == a[1..] + b;
    }
  }

  // -------------------------------------------------------- specification

  /** The sorted sequence with `k` added. */
  ghost function Ins(s: seq<int>, k: int): (r: seq<int>) {
    if s == [] then [k]
    else if s[0] < k then [s[0]] + Ins(s[1..], k)
    else [k] + s
  }

  /** The sequence without its first `k`. */
  ghost function Del(s: seq<int>, k: int): (r: seq<int>) {
    if s == [] then []
    else if s[0] == k then s[1..]
    else [s[0]] + Del(s[1..], k)
  }

  ghost function Elems(s: seq<int>): (r: set<int>) { set x | x in s }

  lemma {:induction false} ElemsConcat(a: seq<int>, b: seq<int>)
    ensures Elems(a + b) == Elems(a) + Elems(b)
  {
  }

  lemma {:induction false} InsMeans(s: seq<int>, k: int)
    requires Inc(s) && k !in s
    ensures Inc(Ins(s, k)) && Elems(Ins(s, k)) == Elems(s) + {k}
  {
    if s != [] {
      if s[0] < k {
        InsMeans(s[1..], k);
        assert Ins(s, k)[1..] == Ins(s[1..], k);
        assert s == [s[0]] + s[1..];
        ElemsConcat([s[0]], s[1..]);
        ElemsConcat([s[0]], Ins(s[1..], k));
        assert |Ins(s[1..], k)| > 0 && (Ins(s[1..], k)[0] == k || (|s| > 1 && Ins(s[1..], k)[0] == s[1]));
      } else {
        assert Ins(s, k)[1..] == s && s[0] in s;
        ElemsConcat([k], s);
      }
    }
  }

  lemma {:induction false} DelMeans(s: seq<int>, k: int)
    requires Inc(s)
    ensures Inc(Del(s, k)) && Elems(Del(s, k)) == Elems(s) - {k}
  {
    if s != [] {
      IncHead(s);
      assert s == [s[0]] + s[1..];
      ElemsConcat([s[0]], s[1..]);
      assert s[0] !in Elems(s[1..]);
      if s[0] != k {
        DelMeans(s[1..], k);
        var r := Del(s[1..], k);
        assert Del(s, k)[1..] == r;
        ElemsConcat([s[0]], r);
        if r != [] { assert r[0] in Elems(r) && r[0] in s[1..]; }
      }
    }
  }

  lemma {:induction false} InsWithin(a: seq<int>, c: seq<int>, b: seq<int>, k: int)
    requires AllBelow(a, k) && AllAbove(k, b)
    ensures Ins(a + c + b, k) == a + Ins(c, k) + b
    decreases |a| + |c|
  {
    var s := a + c + b;
    if a != [] {
      assert s[1..] == a[1..] + c + b;
      InsWithin(a[1..], c, b, k);
      assert [a[0]] + (a[1..] + Ins(c, k) + b) == a + Ins(c, k) + b;
    } else {
      assert s == c + b;
      InsInFront(c, b, k);
    }
  }

  lemma {:induction false} InsInFront(c: seq<int>, b: seq<int>, k: int)
    requires AllAbove(k, b)
    ensures Ins(c + b, k) == Ins(c, k) + b
  {
    var s := c + b;
    if c == [] {
      assert s == b;
    } else if c[0] < k {
      assert s[1..] == c[1..] + b && s[0] == c[0];
      InsInFront(c[1..], b, k);
      Reassociate([c[0]], Ins(c[1..], k), b);
    } else {
      assert s[0] == c[0];
      Reassociate([k], c, b);
    }
  }

  lemma {:induction false} DelWithin(a: seq<int>, c: seq<int>, b: seq<int>, k: int)
    requires k !in a && (k in c || k !in b)
    ensures Del(a + c + b, k) == a + Del(c, k) + b
    decreases |a|
  {
    var s := a + c + b;
    if a != [] {
      assert s[1..] == a[1..] + c + b;
      DelWithin(a[1..], c, b, k);
      assert [a[0]] + (a[1..] + Del(c, k) + b) == a + Del(c, k) + b;
    } else {
      assert s == c + b;
      DelInFront(c, b, k);
    }
  }

  lemma {:induction false} DelInFront(c: seq<int>, b: seq<int>, k: int)
    requires k in c || k !in b
    ensures Del(c + b, k) == Del(c, k) + b
  {
    var s := c + b;
    if c == [] {
      assert s == b;
      DelAbsent(b, k);
    } else {
      assert s[1..] == c[1..] + b && s[0] == c[0];
      if c[0] != k {
        DelInFront(c[1..], b, k);
        Reassociate([c[0]], Del(c[1..], k), b);
      }
    }
  }

  lemma {:induction false} DelAbsent(s: seq<int>, k: int)
    requires k !in s
    ensures Del(s, k) == s
  {
    if s != [] {
      DelAbsent(s[1..], k);
      assert s == [s[0]] + s[1..];
    }
  }

  // ---------------------------------------------------------------- shape

  /** All leaves `h` levels down, at most 2d - 1 items per node, at least d - 1 below the top. */
  ghost predicate Shape(n: Node, d: nat, h: nat)
    decreases h
  {
    && |n.items| < 2 * d
    && (if h == 0 then n.children == []
        else |n.children| == |n.items| + 1 &&
             forall i :: 0 <= i < |n.children| ==>
               Shape(n.children[i], d, h - 1) && |n.children[i].items| >= d - 1)
  }

  /** A node that is not the root. */
  ghost predicate Child(n: Node, d: nat, h: nat) {
    Shape(n, d, h) && |n.items| >= d - 1
  }

  // ---------------------------------------------------------------- search

  /** sort.Search in find: the first index whose item is greater than `t`. */
  function FirstGreater(items: seq<int>, t: int): (i: nat)
    ensures i <= |items|
    ensures forall j :: 0 <= j < i ==> items[j] <= t
    ensures i < |items| ==> t < items[i]
  {
    if items == [] || t < items[0] then 0 else 1 + FirstGreater(items[1..], t)
  }

  /** find: the index of `t`, or of the child that may hold it. */
  function Find(items: seq<int>, t: int): (r: (nat, bool))
    ensures r.1 ==> r.0 < |items| && items[r.0] == t
    ensures !r.1 ==> r.0 <= |items| && (r.0 > 0 ==> items[r.0 - 1] < t) && (r.0 < |items| ==> t < items[r.0])
  {
    var i := FirstGreater(items, t);
    if i > 0 && items[i - 1] >= t then (i - 1, true) else (i, false)
  }

  /** The items of a node are sorted when its contents are. */
  lemma {:induction false} ItemsInc(cs: seq<Node>, items: seq<int>)
    requires |cs| == |items| + 1 && Inc(Weave(cs, items))
    ensures Inc(items)
    decreases |items|
  {
    if items != [] {
      var rest := Weave(cs[1..], items[1..]);
      Reassociate(Flat(cs[0]), [items[0]], rest);
      IncParts(Flat(cs[0]), [items[0]] + rest);
      IncParts([items[0]], rest);
      ItemsInc(cs[1..], items[1..]);
      if |items| >= 2 {
        Around(cs[1..], items[1..], 1);
        assert items[1] in rest;
      }
    }
  }

  /** In sorted items, where find stops is determined by the neighbours. */
  lemma {:induction false} FindAt(items: seq<int>, t: int, i: nat)
    requires Inc(items) && i <= |items|
    requires i > 0 ==> items[i - 1] < t
    requires i < |items| ==> t <= items[i]
    ensures Find(items, t) == (i, i < |items| && t == items[i])
  {
    var g := FirstGreater(items, t);
    IncIndex(items);
  }

  lemma {:induction false} IncIndex(s: seq<int>)
    requires Inc(s)
    ensures forall i, j :: 0 <= i < j < |s| ==> s[i] < s[j]
  {
    if s != [] {
      IncHead(s);
      IncIndex(s[1..]);
      forall i, j | 0 <= i < j < |s| ensures s[i] < s[j] {
        if i == 0 { assert s[j] == s[1..][j - 1]; }
        else { assert s[1..][i - 1] < s[1..][j - 1]; }
      }
    }
  }

  lemma {:induction false} InMiddle(a: seq<int>, c: seq<int>, b: seq<int>, k: int)
    requires AllBelow(a, k) && AllAbove(k, b)
    ensures k in a + c + b <==> k in c
  {
    assert k !in a && k !in b;
    assert k in a + c + b <==> k in a || k in c || k in b;
  }

  lemma {:induction false} BeforeBelow(cs: seq<Node>, items: seq<int>, i: nat, k: int)
    requires |cs| == |items| + 1 && i <= |items| && Inc(Before(cs, items, i))
    requires i > 0 ==> items[i - 1] < k
    ensures AllBelow(Before(cs, items, i), k)
  {
    if i > 0 { IncParts(Weave(cs[..i], items[..i - 1]), [items[i - 1]]); }
  }

  lemma {:induction false} AfterAbove(cs: seq<Node>, items: seq<int>, i: nat, k: int)
    requires |cs| == |items| + 1 && i <= |items| && Inc(After(cs, items, i))
    requires i < |items| ==> k < items[i]
    ensures AllAbove(k, After(cs, items, i))
  {
    if i < |items| { IncHead(After(cs, items, i)); }
  }

  /** Going down into child `i` for a key between its neighbouring items. */
  lemma {:induction false} Descend(n: Node, i: nat, k: int)
    requires |n.children| == |n.items| + 1 && i <= |n.items| && Inc(Flat(n))
    requires i > 0 ==> n.items[i - 1] < k
    requires i < |n.items| ==> k < n.items[i]
    ensures var a, c, b := Before(n.children, n.items, i), Flat(n.children[i]), After(n.children, n.items, i);
      && Flat(n) == a + c + b && AllBelow(a, k) && AllAbove(k, b) && Inc(c)
      && (k in Flat(n) <==> k in c)
  {
    var a, c, b := Before(n.children, n.items, i), Flat(n.children[i]), After(n.children, n.items, i);
    Around(n.children, n.items, i);
    IncParts(a + c, b);
    IncParts(a, c);
    BeforeBelow(n.children, n.items, i, k);
    AfterAbove(n.children, n.items, i, k);
    InMiddle(a, c, b, k);
  }

  /** Replacing child `i` changes only its part of the contents. */
  lemma {:induction false} ChildReplaced(n: Node, i: nat, c: Node)
    requires |n.children| == |n.items| + 1 && i <= |n.items|
    ensures Flat(n.(children := n.children[i := c]))
         == Before(n.children, n.items, i) + Flat(c) + After(n.children, n.items, i)
  {
    var cs := n.children[i := c];
    Around(cs, n.items, i);
    assert cs[..i] == n.children[..i] && cs[i + 1..] == n.children[i + 1..];
  }

  /** An item of a node: where it sits in the contents. */
  lemma {:induction false} ItemAt(n: Node, i: nat)
    requires |n.children| == |n.items| + 1 && i < |n.items|
    ensures Flat(n) == Before(n.children, n.items, i) + Flat(n.children[i]) + [n.items[i]]
                       + Weave(n.children[i + 1..], n.items[i + 1..])
    ensures n.items[i] in Flat(n)
  {
    Around(n.children, n.items, i);
    var a, c, m, b := Before(n.children, n.items, i), Flat(n.children[i]), [n.items[i]],
                      Weave(n.children[i + 1..], n.items[i + 1..]);
    Reassociate(a + c, m, b);
    assert (a + c + m + b)[|a + c|] == n.items[i];
  }

  // -------------------------------------------------- splitting and joining

  /** split: the left half, the item that moves up and the right half. */
  function Split(n: Node, mid: nat): (r: (Node, int, Node))
    requires mid < |n.items|
    requires n.children == [] || |n.children| == |n.items| + 1
  {
    if n.children == [] then
      (Node(n.items[..mid], []), n.items[mid], Node(n.items[mid + 1..], []))
    else
      (Node(n.items[..mid], n.children[..mid + 1]), n.items[mid], Node(n.items[mid + 1..], n.children[mid + 1..]))
  }

  /** Two siblings and the item between them as one node. */
  function Join(a: Node, m: int, b: Node): (n: Node) {
    Node(a.items + [m] + b.items, if a.children == [] then [] else a.children + b.children)
  }

  lemma {:induction false} JoinFlat(a: Node, m: int, b: Node, d: nat, h: nat)
    requires Shape(a, d, h) && Shape(b, d, h)
    ensures Flat(Join(a, m, b)) == Flat(a) + [m] + Flat(b)
  {
    if h > 0 { WeaveConcat(a.children, a.items, m, b.children, b.items); }
  }

  lemma {:induction false} JoinShape(a: Node, m: int, b: Node, d: nat, h: nat)
    requires Shape(a, d, h) && Shape(b, d, h) && |a.items| + |b.items| + 1 < 2 * d
    ensures Shape(Join(a, m, b), d, h)
  {
  }

  lemma {:induction false} SplitJoin(n: Node, mid: nat, d: nat, h: nat)
    requires Shape(n, d, h) && mid < |n.items|
    ensures var (a, m, b) := Split(n, mid);
      && Shape(a, d, h) && Shape(b, d, h) && |a.items| == mid && |b.items| == |n.items| - mid - 1
      && Join(a, m, b) == n && Flat(n) == Flat(a) + [m] + Flat(b)
  {
    var (a, m, b) := Split(n, mid);
    assert Join(a, m, b) == n;
    JoinFlat(a, m, b, d, h);
  }

  /** maybeSplitChild on a full child: the item in the middle moves up between the halves. */
  function SplitChild(n: Node, i: nat): (r: Node)
    requires i < |n.children| && i <= |n.items|
    requires var c := n.children[i]; c.items != [] && (c.children == [] || |c.children| == |c.items| + 1)
  {
    var c := n.children[i];
    var (a, m, b) := Split(c, |c.items| / 2);
    Node(n.items[..i] + [m] + n.items[i..], n.children[..i] + [a, b] + n.children[i + 1..])
  }

  lemma {:induction false} SplitChildFlat(n: Node, i: nat, d: nat, h: nat)
    requires Shape(n, d, h) && h > 0 && i < |n.children|
    requires Child(n.children[i], d, h - 1) && n.children[i].items != []
    ensures Flat(SplitChild(n, i)) == Flat(n)
  {
    var c := n.children[i];
    var (a, m, b) := Split(c, |c.items| / 2);
    SplitJoin(c, |c.items| / 2, d, h - 1);
    TwoForOne(n, i, a, m, b);
  }

  lemma {:induction false} SplitChildShape(n: Node, i: nat, d: nat, h: nat)
    requires d >= 2 && Shape(n, d, h) && h > 0 && i < |n.children| && |n.items| < 2 * d - 1
    requires Child(n.children[i], d, h - 1) && |n.children[i].items| == 2 * d - 1
    ensures var n' := SplitChild(n, i);
      && Shape(n', d, h) && |n'.items| == |n.items| + 1
      && |n'.children[i].items| == |n'.children[i + 1].items| == d - 1
      && (forall j :: 0 <= j < i ==> n'.items[j] == n.items[j])
      && (forall j :: i < j < |n'.items| ==> n'.items[j] == n.items[j - 1])
  {
    var c, n' := n.children[i], SplitChild(n, i);
    SplitJoin(c, |c.items| / 2, d, h - 1);
    forall j | 0 <= j < |n'.children| ensures Child(n'.children[j], d, h - 1) {
      if j < i { assert n'.children[j] == n.children[j]; }
      else if j > i + 1 { assert n'.children[j] == n.children[j - 1]; }
    }
  }

  lemma {:induction false} SameBefore(cs: seq<Node>, items: seq<int>, cs': seq<Node>, items': seq<int>, i: nat)
    requires |cs| == |items| + 1 && |cs'| == |items'| + 1 && i <= |items| && i <= |items'|
    requires cs[..i] == cs'[..i] && items[..i] == items'[..i]
    ensures Before(cs, items, i) == Before(cs', items', i)
  {
    if i > 0 {
      assert items[..i - 1] == items[..i][..i - 1] && items'[..i - 1] == items'[..i][..i - 1];
      assert items[i - 1] == items[..i][i - 1] && items'[i - 1] == items'[..i][i - 1];
    }
  }

  lemma {:induction false} SameAfter(cs: seq<Node>, items: seq<int>, cs': seq<Node>, items': seq<int>, i: nat, j: nat)
    requires |cs| == |items| + 1 && |cs'| == |items'| + 1 && i <= |items| && j <= |items'|
    requires cs[i + 1..] == cs'[j + 1..] && items[i..] == items'[j..]
    ensures After(cs, items, i) == After(cs', items', j)
  {
    if i < |items| {
      assert items[i..][0] == items'[j..][0];
      assert items[i + 1..] == items[i..][1..] && items'[j + 1..] == items'[j..][1..];
    }
  }

  /** A node's contents as seen from two neighbouring children. */
  lemma {:induction false} PairAt(n: Node, j: nat)
    requires |n.children| == |n.items| + 1 && j < |n.items|
    ensures Flat(n) == Before(n.children, n.items, j)
      + (Flat(n.children[j]) + [n.items[j]] + Flat(n.children[j + 1])) + After(n.children, n.items, j + 1)
  {
    ItemAt(n, j);
    WeaveFrom(n.children, n.items, j + 1);
    var a, x, m, y, b := Before(n.children, n.items, j), Flat(n.children[j]), [n.items[j]],
                         Flat(n.children[j + 1]), After(n.children, n.items, j + 1);
    assert a + x + m + (y + b) == a + (x + m + y) + b;
  }

  /** Replacing two neighbours and the item between them by others with the same contents. */
  lemma {:induction false} TwoForTwo(n: Node, j: nat, a: Node, m: int, b: Node)
    requires |n.children| == |n.items| + 1 && j < |n.items|
    requires Flat(a) + [m] + Flat(b) == Flat(n.children[j]) + [n.items[j]] + Flat(n.children[j + 1])
    ensures Flat(Node(n.items[j := m], n.children[j := a][j + 1 := b])) == Flat(n)
  {
    var n' := Node(n.items[j := m], n.children[j := a][j + 1 := b]);
    PairAt(n, j);
    PairAt(n', j);
    SameBefore(n.children, n.items, n'.children, n'.items, j);
    SameAfter(n.children, n.items, n'.children, n'.items, j + 1, j + 1);
  }

  lemma {:induction false} TwoForOne(n: Node, i: nat, a: Node, m: int, b: Node)
    requires |n.children| == |n.items| + 1 && i <= |n.items|
    requires Flat(n.children[i]) == Flat(a) + [m] + Flat(b)
    ensures var n' := Node(n.items[..i] + [m] + n.items[i..], n.children[..i] + [a, b] + n.children[i + 1..]);
      Flat(n') == Flat(n)
  {
    var items := n.items[..i] + [m] + n.items[i..];
    var cs := n.children[..i] + [a, b] + n.children[i + 1..];
    var n' := Node(items, cs);
    ItemAt(n', i);
    SameBefore(cs, items, n.children, n.items, i);
    assert cs[i + 1..] == [b] + n.children[i + 1..] && items[i + 1..] == n.items[i..];
    PairAt(n', i);
    SameAfter(cs, items, n.children, n.items, i + 1, i);
    Around(n.children, n.items, i);
  }

  // ---------------------------------------------------- stealing and merging

  /** Moving the last item (and child) of the left sibling over. */
  function StealLeft(a: Node, m: int, b: Node): (r: (Node, int, Node))
    requires a.items != []
  {
    var last := |a.items| - 1;
    if a.children == [] then
      (Node(a.items[..last], []), a.items[last], Node([m] + b.items, b.children))
    else
      var lastChild := |a.children| - 1;
      (Node(a.items[..last], a.children[..lastChild]), a.items[last],
       Node([m] + b.items, [a.children[lastChild]] + b.children))
  }

  /** Moving the first item (and child) of the right sibling over. */
  function StealRight(a: Node, m: int, b: Node): (r: (Node, int, Node))
    requires b.items != []
  {
    if b.children == [] then
      (Node(a.items + [m], a.children), b.items[0], Node(b.items[1..], []))
    else
      (Node(a.items + [m], a.children + [b.children[0]]), b.items[0], Node(b.items[1..], b.children[1..]))
  }

  lemma {:induction false} FlatAppend(n: Node, m: int, c: Node)
    requires |n.children| == |n.items| + 1
    ensures Flat(Node(n.items + [m], n.children + [c])) == Flat(n) + [m] + Flat(c)
  {
    WeaveConcat(n.children, n.items, m, [c], []);
    assert n.items + [m] + [] == n.items + [m];
  }

  lemma {:induction false} FlatPrepend(c: Node, m: int, n: Node)
    requires |n.children| == |n.items| + 1
    ensures Flat(Node([m] + n.items, [c] + n.children)) == Flat(c) + [m] + Flat(n)
  {
    WeaveConcat([c], [], m, n.children, n.items);
    assert [] + [m] + n.items == [m] + n.items;
  }

  lemma {:induction false} ShapeAppend(n: Node, m: int, c: Node, d: nat, h: nat)
    requires Shape(n, d, h) && h > 0 && Child(c, d, h - 1) && |n.items| < 2 * d - 1
    ensures Shape(Node(n.items + [m], n.children + [c]), d, h)
  {
    var n' := Node(n.items + [m], n.children + [c]);
    forall i | 0 <= i < |n'.children| ensures Child(n'.children[i], d, h - 1) {
      if i < |n.children| { assert n'.children[i] == n.children[i]; }
    }
  }

  lemma {:induction false} ShapePrepend(c: Node, m: int, n: Node, d: nat, h: nat)
    requires Shape(n, d, h) && h > 0 && Child(c, d, h - 1) && |n.items| < 2 * d - 1
    ensures Shape(Node([m] + n.items, [c] + n.children), d, h)
  {
    var n' := Node([m] + n.items, [c] + n.children);
    forall i | 0 <= i < |n'.children| ensures Child(n'.children[i], d, h - 1) {
      if i > 0 { assert n'.children[i] == n.children[i - 1]; }
    }
  }

  lemma {:induction false} ShapeTrim(n: Node, d: nat, h: nat)
    requires Shape(n, d, h) && h > 0 && n.items != []
    ensures var k := |n.items|;
      Shape(Node(n.items[..k - 1], n.children[..k]), d, h) && Shape(Node(n.items[1..], n.children[1..]), d, h)
  {
  }

  lemma {:induction false} StealLeftShape(a: Node, m: int, b: Node, d: nat, h: nat)
    requires Shape(a, d, h) && Shape(b, d, h) && a.items != [] && |b.items| < 2 * d - 1
    ensures Shape(StealLeft(a, m, b).0, d, h) && Shape(StealLeft(a, m, b).2, d, h)
  {
    if h > 0 {
      ShapeTrim(a, d, h);
      ShapePrepend(a.children[|a.items|], m, b, d, h);
    }
  }

  lemma {:induction false} StealLeftFlat(a: Node, m: int, b: Node, d: nat, h: nat)
    requires Shape(a, d, h) && Shape(b, d, h) && a.items != []
    ensures var (a', m', b') := StealLeft(a, m, b);
      Flat(a') + [m'] + Flat(b') == Flat(a) + [m] + Flat(b) && m in Flat(b')
  {
    if h == 0 {
      StealLeftLeaf(a.items, m, b.items);
    } else {
      StealLeftInner(a, m, b);
    }
  }

  lemma {:induction false} StealLeftLeaf(a: seq<int>, m: int, b: seq<int>)
    requires a != []
    ensures a[..|a| - 1] + [a[|a| - 1]] + ([m] + b) == a + [m] + b
  {
  }

  lemma {:induction false} StealLeftInner(a: Node, m: int, b: Node)
    requires a.items != [] && |a.children| == |a.items| + 1 && |b.children| == |b.items| + 1
    ensures var (a', m', b') := StealLeft(a, m, b);
      Flat(a') + [m'] + Flat(b') == Flat(a) + [m] + Flat(b) && m in Flat(b')
  {
    var k := |a.items| - 1;
    var m', c, a' := a.items[k], a.children[k + 1], Node(a.items[..k], a.children[..k + 1]);
    assert Flat(a) == Flat(a') + [m'] + Flat(c) by {
      assert a == Node(a'.items + [m'], a'.children + [c]);
      FlatAppend(a', m', c);
    }
    FlatPrepend(c, m, b);
    Regroup(Flat(a'), m', Flat(c), m, Flat(b));
  }

  lemma {:induction false} Regroup(a: seq<int>, m: int, b: seq<int>, m': int, c: seq<int>)
    ensures a + [m] + (b + [m'] + c) == (a + [m] + b) + [m'] + c
    ensures m in a + [m] + b && m' in b + [m'] + c
  {
    assert (a + [m] + b)[|a|] == m && (b + [m'] + c)[|b|] == m';
  }

  lemma {:induction false} StealRightShape(a: Node, m: int, b: Node, d: nat, h: nat)
    requires Shape(a, d, h) && Shape(b, d, h) && b.items != [] && |a.items| < 2 * d - 1
    ensures Shape(StealRight(a, m, b).0, d, h) && Shape(StealRight(a, m, b).2, d, h)
  {
    if h > 0 {
      ShapeTrim(b, d, h);
      ShapeAppend(a, m, b.children[0], d, h);
    }
  }

  lemma {:induction false} StealRightFlat(a: Node, m: int, b: Node, d: nat, h: nat)
    requires Shape(a, d, h) && Shape(b, d, h) && b.items != []
    ensures var (a', m', b') := StealRight(a, m, b);
      Flat(a') + [m'] + Flat(b') == Flat(a) + [m] + Flat(b) && m in Flat(a')
  {
    if h == 0 {
      StealRightLeaf(a.items, m, b.items);
    } else {
      StealRightInner(a, m, b);
    }
  }

  lemma {:induction false} StealRightLeaf(a: seq<int>, m: int, b: seq<int>)
    requires b != []
    ensures (a + [m]) + [b[0]] + b[1..] == a + [m] + b
  {
  }

  lemma {:induction false} StealRightInner(a: Node, m: int, b: Node)
    requires b.items != [] && |a.children| == |a.items| + 1 && |b.children| == |b.items| + 1
    ensures var (a', m', b') := StealRight(a, m, b);
      Flat(a') + [m'] + Flat(b') == Flat(a) + [m] + Flat(b) && m in Flat(a')
  {
    var m', c, b' := b.items[0], b.children[0], Node(b.items[1..], b.children[1..]);
    assert Flat(b) == Flat(c) + [m'] + Flat(b') by {
      assert b == Node([m'] + b'.items, [c] + b'.children);
      FlatPrepend(c, m', b');
    }
    FlatAppend(a, m, c);
    Regroup(Flat(a), m, Flat(c), m', Flat(b'));
  }

  /** Merging children j and j + 1; a node with a single item becomes the merged child. */
  function MergeAt(n: Node, j: nat): (r: Node)
    requires j < |n.items| && j + 1 < |n.children|
  {
    var merged := Join(n.children[j], n.items[j], n.children[j + 1]);
    if |n.items| == 1 then merged
    else Node(n.items[..j] + n.items[j + 1..], n.children[..j] + [merged] + n.children[j + 2..])
  }

  lemma {:induction false} MergeParts(n: Node, j: nat)
    requires |n.children| == |n.items| + 1 && j < |n.items| && |n.items| > 1
    ensures var n' := MergeAt(n, j);
      && n'.items[..j] + [n.items[j]] + n'.items[j..] == n.items
      && n'.children[..j] + [n.children[j], n.children[j + 1]] + n'.children[j + 1..] == n.children
  {
    var n' := MergeAt(n, j);
    assert n'.items[..j] == n.items[..j] && n'.items[j..] == n.items[j + 1..];
    assert n'.children[..j] == n.children[..j] && n'.children[j + 1..] == n.children[j + 2..];
  }

  lemma {:induction false} MergeFlat(n: Node, j: nat, d: nat, h: nat)
    requires Shape(n, d, h) && h > 0 && j < |n.items|
    ensures Flat(MergeAt(n, j)) == Flat(n)
  {
    var a, m, b := n.children[j], n.items[j], n.children[j + 1];
    JoinFlat(a, m, b, d, h - 1);
    if |n.items| == 1 {
      PairAt(n, 0);
    } else {
      var n' := MergeAt(n, j);
      assert n'.children[j] == Join(a, m, b);
      TwoForOne(n', j, a, m, b);
      MergeParts(n, j);
    }
  }

  lemma {:induction false} MergeShape(n: Node, j: nat, d: nat, h: nat)
    requires d >= 2 && Shape(n, d, h) && h > 0 && j < |n.items| && |n.items| > 1
    requires |n.children[j].items| == |n.children[j + 1].items| == d - 1
    ensures Shape(MergeAt(n, j), d, h)
  {
    var n' := MergeAt(n, j);
    JoinShape(n.children[j], n.items[j], n.children[j + 1], d, h - 1);
    forall i | 0 <= i < |n'.children| ensures Shape(n'.children[i], d, h - 1) && |n'.children[i].items| >= d - 1 {
      if i < j { assert n'.children[i] == n.children[i]; }
      else if i > j { assert n'.children[i] == n.children[i + 1]; }
    }
  }

  lemma {:induction false} MergeKeeps(n: Node, j: nat, d: nat, h: nat)
    requires d >= 2 && Shape(n, d, h) && h > 0 && j < |n.items|
    requires |n.children[j].items| == |n.children[j + 1].items| == d - 1
    ensures Flat(MergeAt(n, j)) == Flat(n)
    ensures |n.items| == 1 ==> Shape(MergeAt(n, j), d, h - 1)
    ensures |n.items| > 1 ==> Shape(MergeAt(n, j), d, h) && |MergeAt(n, j).items| == |n.items| - 1
                              && |MergeAt(n, j).children[j].items| == 2 * d - 1
  {
    MergeFlat(n, j, d, h);
    JoinShape(n.children[j], n.items[j], n.children[j + 1], d, h - 1);
    if |n.items| > 1 { MergeShape(n, j, d, h); }
  }

  /** Key `k` belongs at item `i` or in the child before it. */
  ghost predicate Leads(items: seq<int>, k: int, i: nat) {
    i <= |items| && (i > 0 ==> items[i - 1] < k) && (i < |items| ==> k <= items[i])
  }

  /** The child a removal of `k` goes on to has no item to spare. */
  predicate NeedsGrow(n: Node, k: int, minCap: nat) {
    |n.children| == |n.items| + 1 && |n.children[Find(n.items, k).0].items| <= minCap
  }

  /** growChildAndRemove and growChildAndRemoveMax without the removal. */
  function Grow(n: Node, i: nat, minCap: nat): (r: Node)
    requires |n.children| == |n.items| + 1 && n.items != [] && i <= |n.items|
  {
    var cs := n.children;
    if i > 0 && |cs[i - 1].items| > minCap then
      var (a, m, b) := StealLeft(cs[i - 1], n.items[i - 1], cs[i]);
      Node(n.items[i - 1 := m], cs[i - 1 := a][i := b])
    else if i < |cs| - 1 && |cs[i + 1].items| > minCap then
      var (a, m, b) := StealRight(cs[i], n.items[i], cs[i + 1]);
      Node(n.items[i := m], cs[i := a][i + 1 := b])
    else if i > 0 then
      MergeAt(n, i - 1)
    else
      MergeAt(n, i)
  }

  lemma {:induction false} MiddleOrder(x: seq<int>, m: int, y: seq<int>, k: int)
    requires Inc(x + [m] + y)
    ensures k in x ==> k < m
    ensures k in y ==> m < k
  {
    IncParts(x + [m], y);
    IncParts(x, [m]);
  }

  /** The part of a node's contents around one item is in order. */
  lemma {:induction false} PairInc(n: Node, j: nat)
    requires |n.children| == |n.items| + 1 && j < |n.items| && Inc(Flat(n))
    ensures Inc(Flat(n.children[j]) + [n.items[j]] + Flat(n.children[j + 1]))
  {
    PairAt(n, j);
    var a, p, b := Before(n.children, n.items, j),
      Flat(n.children[j]) + [n.items[j]] + Flat(n.children[j + 1]), After(n.children, n.items, j + 1);
    IncParts(a + p, b);
    IncParts(a, p);
  }

  lemma {:induction false} StealLeftGrows(n: Node, i: nat, d: nat, h: nat, k: int)
    requires d >= 2 && Shape(n, d, h) && h > 0 && 0 < i <= |n.items| && Inc(Flat(n)) && Leads(n.items, k, i)
    requires |n.children[i].items| == d - 1 && |n.children[i - 1].items| > d - 1
    ensures var n' := Grow(n, i, d - 1);
      && Shape(n', d, h) && |n'.items| == |n.items| && |n'.children[i].items| == d
      && Flat(n') == Flat(n) && Leads(n'.items, k, i)
  {
    var a, m, b := n.children[i - 1], n.items[i - 1], n.children[i];
    var (a', m', b') := StealLeft(a, m, b);
    StealLeftShape(a, m, b, d, h - 1);
    StealLeftFlat(a, m, b, d, h - 1);
    TwoForTwo(n, i - 1, a', m', b');
    PairInc(n, i - 1);
    MiddleOrder(Flat(a'), m', Flat(b'), m);
  }

  lemma {:induction false} StealRightGrows(n: Node, i: nat, d: nat, h: nat, k: int)
    requires d >= 2 && Shape(n, d, h) && h > 0 && i < |n.items| && Inc(Flat(n)) && Leads(n.items, k, i)
    requires |n.children[i].items| == d - 1 && |n.children[i + 1].items| > d - 1
    requires i > 0 ==> |n.children[i - 1].items| <= d - 1
    ensures var n' := Grow(n, i, d - 1);
      && Shape(n', d, h) && |n'.items| == |n.items| && |n'.children[i].items| == d
      && Flat(n') == Flat(n) && Leads(n'.items, k, i)
  {
    var a, m, b := n.children[i], n.items[i], n.children[i + 1];
    var (a', m', b') := StealRight(a, m, b);
    StealRightShape(a, m, b, d, h - 1);
    StealRightFlat(a, m, b, d, h - 1);
    TwoForTwo(n, i, a', m', b');
    PairInc(n, i);
    MiddleOrder(Flat(a'), m', Flat(b'), m);
  }

  /** After merging children j and j + 1, a key that led to either is led to the merged child. */
  lemma {:induction false} MergeLeads(n: Node, j: nat, d: nat, h: nat, k: int, i: nat)
    requires d >= 2 && Shape(n, d, h) && h > 0 && j < |n.items| && |n.items| > 1 && Inc(Flat(n))
    requires (i == j + 1 || i == j) && Leads(n.items, k, i) && (i == j ==> i == 0)
    ensures Leads(MergeAt(n, j).items, k, j)
  {
    ItemsInc(n.children, n.items);
    IncIndex(n.items);
  }

  // -------------------------------------------------------------- inserting

  lemma {:induction false} InsInLeaf(items: seq<int>, k: int, i: nat)
    requires Inc(items) && i <= |items| && (i > 0 ==> items[i - 1] < k) && (i < |items| ==> k < items[i])
    ensures k !in items && Ins(items, k) == items[..i] + [k] + items[i..]
  {
    assert AllBelow(items[..i], k) && AllAbove(k, items[i..]) by { IncIndex(items); }
    var a, b := items[..i], items[i..];
    assert items == a + b;
    InsBetween(a, b, k);
  }

  lemma {:induction false} InsBetween(a: seq<int>, b: seq<int>, k: int)
    requires AllBelow(a, k) && AllAbove(k, b)
    ensures k !in a + b && Ins(a + b, k) == a + [k] + b
  {
    assert a + [] + b == a + b;
    InMiddle(a, [], b, k);
    InsWithin(a, [], b, k);
  }

  /** maybeSplitChild, and the new index to go on at; `same` says the item that moved up is `k`. */
  method MaybeSplitChild(n: Node, i: nat, k: int, maxCap: nat, ghost d: nat, ghost h: nat)
    returns (m: Node, j: nat, same: bool)
    requires d >= 2 && maxCap == 2 * d - 1 && h > 0
    requires Shape(n, d, h) && |n.items| < maxCap && i <= |n.items|
    requires (i > 0 ==> n.items[i - 1] < k) && (i < |n.items| ==> k < n.items[i])
    ensures Shape(m, d, h) && |n.items| <= |m.items| && Flat(m) == Flat(n) && j <= |m.items|
    ensures same ==> j < |m.items| && m.items[j] == k
    ensures !same ==> (j > 0 ==> m.items[j - 1] < k) && (j < |m.items| ==> k < m.items[j]) && |m.children[j].items| < maxCap
  {
    m, j, same := n, i, false;
    if |n.children[i].items| >= maxCap {
      SplitChildFlat(n, i, d, h);
      SplitChildShape(n, i, d, h);
      m := SplitChild(n, i);
      var inTree := m.items[i];
      if k < inTree {
      } else if inTree < k {
        j := i + 1;
      } else {
        same := true;
      }
    }
  }

  /** insert, for a node that is not full. */
  method Insert(n: Node, k: int, maxCap: nat, ghost d: nat, ghost h: nat) returns (n': Node, out: Option<int>)
    requires d >= 2 && maxCap == 2 * d - 1
    requires Shape(n, d, h) && |n.items| < maxCap && Inc(Flat(n))
    ensures Shape(n', d, h) && |n.items| <= |n'.items|
    ensures Flat(n') == if k in Flat(n) then Flat(n) else Ins(Flat(n), k)
    ensures out == if k in Flat(n) then Some(k) else None
    decreases h, 2
  {
    var (i, found) := Find(n.items, k);
    if found {
      if h > 0 { ItemAt(n, i); }
      return n, Some(k);
    }
    if |n.children| == 0 {
      InsInLeaf(n.items, k, i);
      return Node(n.items[..i] + [k] + n.items[i..], []), None;
    }
    n', out := InsertBelow(n, i, k, maxCap, d, h);
  }

  /** insert of a key that is not in an inner node. */
  method InsertBelow(n: Node, i: nat, k: int, maxCap: nat, ghost d: nat, ghost h: nat) returns (n': Node, out: Option<int>)
    requires d >= 2 && maxCap == 2 * d - 1 && h > 0
    requires Shape(n, d, h) && |n.items| < maxCap && Inc(Flat(n)) && i <= |n.items|
    requires (i > 0 ==> n.items[i - 1] < k) && (i < |n.items| ==> k < n.items[i])
    ensures Shape(n', d, h) && |n.items| <= |n'.items|
    ensures Flat(n') == if k in Flat(n) then Flat(n) else Ins(Flat(n), k)
    ensures out == if k in Flat(n) then Some(k) else None
    decreases h, 1
  {
    var m, j, same := MaybeSplitChild(n, i, k, maxCap, d, h);
    if same {
      ItemAt(m, j);
      out := Some(m.items[j]);
      n' := Node(m.items[j := k], m.children);
      assert n' == m;
    } else {
      n', out := InsertInChild(m, j, k, maxCap, d, h);
    }
  }

  /** The recursive call of insert. */
  method InsertInChild(m: Node, j: nat, k: int, maxCap: nat, ghost d: nat, ghost h: nat)
    returns (n': Node, out: Option<int>)
    requires d >= 2 && maxCap == 2 * d - 1 && h > 0
    requires Shape(m, d, h) && Inc(Flat(m)) && j <= |m.items|
    requires (j > 0 ==> m.items[j - 1] < k) && (j < |m.items| ==> k < m.items[j]) && |m.children[j].items| < maxCap
    ensures Shape(n', d, h) && n'.items == m.items
    ensures Flat(n') == if k in Flat(m) then Flat(m) else Ins(Flat(m), k)
    ensures out == if k in Flat(m) then Some(k) else None
    decreases h, 0
  {
    Descend(m, j, k);
    var c;
    c, out := Insert(m.children[j], k, maxCap, d, h - 1);
    n' := Node(m.items, m.children[j := c]);
    ChildReplaced(m, j, c);
    InsWithin(Before(m.children, m.items, j), Flat(m.children[j]), After(m.children, m.items, j), k);
  }

  // --------------------------------------------------------------- removing

  /** `k` leads to a child that can lose an item, the last one if `last`. */
  ghost predicate GoesOn(n: Node, k: int, d: nat, last: bool) {
    exists j: nat :: Leads(n.items, k, j) && j < |n.children| && |n.children[j].items| >= d && (last ==> j == |n.items|)
  }

  /** Growing the child that `k` leads to: the contents stay and the child can now lose an item. */
  lemma {:induction false} GrowWorks(n: Node, k: int, i: nat, d: nat, h: nat)
    requires d >= 2 && Shape(n, d, h) && h > 0 && n.items != [] && Inc(Flat(n))
    requires Leads(n.items, k, i) && |n.children[i].items| == d - 1
    ensures var n' := Grow(n, i, d - 1);
      && Flat(n') == Flat(n)
      && (|| (|n.items| == 1 && Shape(n', d, h - 1) && |n'.items| == 2 * d - 1)
          || (Shape(n', d, h) && |n'.items| >= |n.items| - 1 && n'.items != [] && GoesOn(n', k, d, i == |n.items|)))
  {
    var n' := Grow(n, i, d - 1);
    if i > 0 && |n.children[i - 1].items| > d - 1 {
      StealLeftGrows(n, i, d, h, k);
      assert Leads(n'.items, k, i) && |n'.children[i].items| >= d;
    } else if i < |n.items| && |n.children[i + 1].items| > d - 1 {
      StealRightGrows(n, i, d, h, k);
      assert Leads(n'.items, k, i) && |n'.children[i].items| >= d;
    } else {
      var j := if i > 0 then i - 1 else i;
      MergeKeeps(n, j, d, h);
      if |n.items| > 1 {
        MergeLeads(n, j, d, h, k, i);
        assert Leads(n'.items, k, j) && |n'.children[j].items| >= d;
      } else {
        MergedSize(n, d, h);
      }
    }
  }

  lemma {:induction false} MergedSize(n: Node, d: nat, h: nat)
    requires d >= 1 && Shape(n, d, h) && h > 0 && |n.items| == 1
    requires |n.children[0].items| == |n.children[1].items| == d - 1
    ensures |MergeAt(n, 0).items| == 2 * d - 1
  {
  }

  /** Having grown a child, find leads to one with an item to spare. */
  lemma {:induction false} NoMoreGrowing(n: Node, k: int, d: nat, h: nat, last: bool)
    requires Shape(n, d, h) && h > 0 && d >= 1 && Inc(Flat(n)) && GoesOn(n, k, d, last)
    ensures !NeedsGrow(n, k, d - 1)
    ensures last ==> |n.children[|n.items|].items| >= d
  {
    var j: nat :| Leads(n.items, k, j) && j < |n.children| && |n.children[j].items| >= d && (last ==> j == |n.items|);
    ItemsInc(n.children, n.items);
    FindAt(n.items, k, j);
  }

  /** The last child has no item to spare. */
  predicate LastNeedsGrow(n: Node, minCap: nat) {
    |n.children| == |n.items| + 1 && |n.children[|n.items|].items| <= minCap
  }

  /** removeMax. A node whose own items may shrink has one to spare, so no parent is ever emptied here. */
  method RemoveMax(n: Node, minCap: nat, ghost d: nat, ghost h: nat) returns (n': Node, out: int)
    requires d >= 2 && minCap == d - 1 && Child(n, d, h) && Inc(Flat(n))
    requires h == 0 || LastNeedsGrow(n, minCap) ==> |n.items| >= d
    ensures Child(n', d, h) && Flat(n) == Flat(n') + [out]
    decreases h, if LastNeedsGrow(n, minCap) then 1 else 0
  {
    var last := |n.items| - 1;
    if |n.children| == 0 {
      n', out := Node(n.items[..last], []), n.items[last];
    } else if |n.children[last + 1].items| <= minCap {
      assert |n.items| > 1;
      ghost var top := n.items[last] + 1;
      GrowWorks(n, top, last + 1, d, h);
      NoMoreGrowing(Grow(n, last + 1, minCap), top, d, h, true);
      n', out := RemoveMax(Grow(n, last + 1, minCap), minCap, d, h);
    } else {
      LastChild(n);
      var c;
      c, out := RemoveMax(n.children[last + 1], minCap, d, h - 1);
      n' := Node(n.items, n.children[last + 1 := c]);
      ChildReplaced(n, last + 1, c);
    }
  }

  lemma {:induction false} LastChild(n: Node)
    requires |n.children| == |n.items| + 1 && Inc(Flat(n))
    ensures Flat(n) == Before(n.children, n.items, |n.items|) + Flat(n.children[|n.items|])
    ensures Inc(Flat(n.children[|n.items|]))
  {
    Around(n.children, n.items, |n.items|);
    var a, c := Before(n.children, n.items, |n.items|), Flat(n.children[|n.items|]);
    assert a + c + [] == a + c;
    IncParts(a, c);
  }

  /** A removal of the root, or of a node with an item to spare wherever it could lose one. */
  ghost predicate Ready(n: Node, k: int, d: nat, h: nat, root: bool) {
    && Shape(n, d, h)
    && (if root then h > 0 ==> n.items != []
        else |n.items| >= d - 1 && (h == 0 || NeedsGrow(n, k, d - 1) ==> |n.items| >= d))
  }

  /** What a removal leaves: the root may have lost a level, any other node is still a good child. */
  ghost predicate Left(n: Node, d: nat, h: nat, h': nat, root: bool) {
    && Shape(n, d, h')
    && (if root then (h' == h || h' + 1 == h) && (h' > 0 ==> n.items != []) else h' == h && |n.items| >= d - 1)
  }

  lemma {:induction false} FindLeads(items: seq<int>, k: int)
    requires Inc(items)
    ensures Leads(items, k, Find(items, k).0)
  {
    IncIndex(items);
  }

  /** remove */
  method Remove(n: Node, k: int, minCap: nat, ghost d: nat, ghost h: nat, ghost root: bool)
    returns (n': Node, out: Option<int>, ghost h': nat)
    requires d >= 2 && minCap == d - 1 && Ready(n, k, d, h, root) && Inc(Flat(n))
    ensures Left(n', d, h, h', root) && (|n.items| > 1 || !NeedsGrow(n, k, minCap) ==> h' == h)
    ensures Flat(n') == Del(Flat(n), k)
    ensures out == if k in Flat(n) then Some(k) else None
    decreases h, if NeedsGrow(n, k, minCap) then 2 else 0
  {
    var (i, found) := Find(n.items, k);
    if |n.children| != 0 && |n.children[i].items| <= minCap {
      n', out, h' := GrowChildAndRemove(n, i, k, minCap, d, h, root);
      return;
    }
    h' := h;
    if found {
      out := Some(n.items[i]);
      if |n.children| == 0 {
        DelInLeaf(n.items, k, i);
        n' := Node(n.items[..i] + n.items[i + 1..], []);
      } else {
        ItemAt(n, i);
        n' := ReplaceByPredecessor(n, i, minCap, d, h);
      }
    } else {
      if |n.children| == 0 {
        InsInLeaf(n.items, k, i);
        DelAbsent(n.items, k);
        n', out := n, None;
      } else {
        n', out := RemoveInChild(n, i, k, minCap, d, h);
      }
    }
  }

  /** The recursive call of remove, into a child with an item to spare. */
  method RemoveInChild(n: Node, i: nat, k: int, minCap: nat, ghost d: nat, ghost h: nat)
    returns (n': Node, out: Option<int>)
    requires d >= 2 && minCap == d - 1 && h > 0 && Shape(n, d, h) && Inc(Flat(n))
    requires i <= |n.items| && (i > 0 ==> n.items[i - 1] < k) && (i < |n.items| ==> k < n.items[i])
    requires |n.children[i].items| > minCap
    ensures Shape(n', d, h) && n'.items == n.items
    ensures Flat(n') == Del(Flat(n), k)
    ensures out == if k in Flat(n) then Some(k) else None
    decreases h - 1, 3
  {
    Descend(n, i, k);
    var c;
    ghost var hc;
    c, out, hc := Remove(n.children[i], k, minCap, d, h - 1, false);
    n' := Node(n.items, n.children[i := c]);
    ChildReplaced(n, i, c);
    DelWithin(Before(n.children, n.items, i), Flat(n.children[i]), After(n.children, n.items, i), k);
  }

  /**
   * growChildAndRemove: only a root with a single item disappears into its merged
   * children, and one of the four ways to grow the child always applies.
   */
  method GrowChildAndRemove(n: Node, i: nat, k: int, minCap: nat, ghost d: nat, ghost h: nat, ghost root: bool)
    returns (n': Node, out: Option<int>, ghost h': nat)
    requires d >= 2 && minCap == d - 1 && Ready(n, k, d, h, root) && Inc(Flat(n))
    requires h > 0 && i == Find(n.items, k).0 && |n.children[i].items| <= minCap
    ensures Left(n', d, h, h', root) && (|n.items| > 1 ==> h' == h)
    ensures Flat(n') == Del(Flat(n), k)
    ensures out == if k in Flat(n) then Some(k) else None
    decreases h, 1
  {
    ghost var level := GrownReady(n, i, k, d, h, root);
    n', out, h' := Remove(Grow(n, i, minCap), k, minCap, d, level, root);
  }

  /** The grown node is one to go on removing from, and need not grow again unless it was the root. */
  lemma {:induction false} GrownReady(n: Node, i: nat, k: int, d: nat, h: nat, root: bool) returns (level: nat)
    requires d >= 2 && Ready(n, k, d, h, root) && Inc(Flat(n))
    requires h > 0 && i == Find(n.items, k).0 && |n.children[i].items| <= d - 1
    ensures n.items != [] && Flat(Grow(n, i, d - 1)) == Flat(n) && Ready(Grow(n, i, d - 1), k, d, level, root)
    ensures (level == h && !NeedsGrow(Grow(n, i, d - 1), k, d - 1))
         || (level == h - 1 && root && |n.items| == 1 && |Grow(n, i, d - 1).items| > 1)
  {
    ItemsInc(n.children, n.items);
    FindLeads(n.items, k);
    GrowWorks(n, k, i, d, h);
    var grown := Grow(n, i, d - 1);
    level := h - 1;
    if Shape(grown, d, h) && GoesOn(grown, k, d, i == |n.items|) {
      NoMoreGrowing(grown, k, d, h, i == |n.items|);
      level := h;
    }
  }

  lemma {:induction false} DelInLeaf(items: seq<int>, k: int, i: nat)
    requires Inc(items) && i < |items| && items[i] == k
    ensures Del(items, k) == items[..i] + items[i + 1..]
  {
    IncIndex(items);
    assert items == items[..i] + [k] + items[i + 1..];
    DelWithin(items[..i], [k], items[i + 1..], k);
    assert items[..i] + [] + items[i + 1..] == items[..i] + items[i + 1..];
  }

  /** remove of an item of an inner node: the greatest item below it takes its place. */
  method ReplaceByPredecessor(n: Node, i: nat, minCap: nat, ghost d: nat, ghost h: nat) returns (n': Node)
    requires d >= 2 && minCap == d - 1 && h > 0 && Shape(n, d, h) && Inc(Flat(n))
    requires i < |n.items| && |n.children[i].items| > minCap
    ensures Shape(n', d, h) && |n'.items| == |n.items| && Flat(n') == Del(Flat(n), n.items[i])
  {
    ChildSorted(n, i);
    var c, greatest := RemoveMax(n.children[i], minCap, d, h - 1);
    n' := Node(n.items[i := greatest], n.children[i := c]);
    PredecessorTakes(n, i, c, greatest);
  }

  /** A child and the item after it are in order. */
  lemma {:induction false} ChildSorted(n: Node, i: nat)
    requires |n.children| == |n.items| + 1 && i < |n.items| && Inc(Flat(n))
    ensures Inc(Flat(n.children[i]))
    ensures AllBelow(Before(n.children, n.items, i) + Flat(n.children[i]), n.items[i])
  {
    ItemAt(n, i);
    var a, x, m, b := Before(n.children, n.items, i), Flat(n.children[i]), n.items[i], Weave(n.children[i + 1..], n.items[i + 1..]);
    IncParts(a + x + [m], b);
    IncParts(a + x, [m]);
    IncParts(a, x);
  }

  /** The greatest item of child i in place of item i. */
  lemma {:induction false} PredecessorTakes(n: Node, i: nat, c: Node, greatest: int)
    requires |n.children| == |n.items| + 1 && i < |n.items| && Inc(Flat(n)) && Flat(n.children[i]) == Flat(c) + [greatest]
    ensures Flat(Node(n.items[i := greatest], n.children[i := c])) == Del(Flat(n), n.items[i])
  {
    var n' := Node(n.items[i := greatest], n.children[i := c]);
    ChildSorted(n, i);
    ItemAt(n, i);
    ItemAt(n', i);
    SameBefore(n.children, n.items, n'.children, n'.items, i);
    assert n'.children[i + 1..] == n.children[i + 1..] && n'.items[i + 1..] == n.items[i + 1..];
    PredecessorDel(Before(n.children, n.items, i), Flat(c), greatest, n.items[i], Weave(n.children[i + 1..], n.items[i + 1..]));
  }

  lemma {:induction false} PredecessorDel(a: seq<int>, x: seq<int>, g: int, m: int, b: seq<int>)
    requires AllBelow(a + (x + [g]), m)
    ensures Del(a + (x + [g]) + [m] + b, m) == a + x + [g] + b
  {
    DelWithin(a + (x + [g]), [m], b, m);
    assert a + (x + [g]) + [] + b == a + x + [g] + b;
  }

  // --------------------------------------------------------------- looking up

  /** get */
  method Lookup(n: Node, k: int, ghost d: nat, ghost h: nat) returns (out: Option<int>)
    requires Shape(n, d, h) && Inc(Flat(n))
    ensures out == if k in Flat(n) then Some(k) else None
    decreases h
  {
    var (i, found) := Find(n.items, k);
    if found {
      if h > 0 { ItemAt(n, i); }
      out := Some(n.items[i]);
    } else if |n.children| > 0 {
      Descend(n, i, k);
      out := Lookup(n.children[i], k, d, h - 1);
    } else {
      InsInLeaf(n.items, k, i);
      out := None;
    }
  }

  // ------------------------------------------------------------------ the tree

  class Tree {
    const degree: nat
    var root: Option<Node>
    ghost var height: nat

    /** Sorted contents, leaves at one depth, item counts within bounds; the root may be small. */
    ghost predicate Valid()
      reads this
    {
      && degree >= 2
      && (root.Some? ==>
            Shape(root.value, degree, height) && Inc(Flat(root.value)) && (height > 0 ==> root.value.items != []))
    }

    /** The items in order. */
    ghost function Contents(): (s: seq<int>)
      reads this
    {
      if root.Some? then Flat(root.value) else []
    }

    ghost function Keys(): (s: set<int>)
      reads this
    {
      Elems(Contents())
    }

    /** NewBTree */
    constructor (degree: nat)
      requires degree >= 2
      ensures Valid() && this.degree == degree && root == None && Keys() == {}
    {
      this.degree := degree;
      root := None;
      height := 0;
    }

    /** Get */
    method Get(k: int) returns (out: Option<int>)
      requires Valid()
      ensures out == if k in Keys() then Some(k) else None
    {
      if root == None {
        return None;
      }
      out := Lookup(root.value, k, degree, height);
    }

    method ReplaceOrInsert(k: int) returns (out: Option<int>)
      requires Valid()
      modifies this
      ensures Valid() && root.Some?
      ensures Keys() == old(Keys()) + {k}
      ensures out == if k in old(Keys()) then Some(k) else None
    {
      if root == None {
        root, height := Some(Node([k], [])), 0;
        return None;
      }
      var maxCap := 2 * degree - 1;
      var r := root.value;
      if |r.items| >= maxCap {
        RootSplit(r, degree, height);
        var (a, m, b) := Split(r, |r.items| / 2);
        r := Node([m], [a, b]);
        height := height + 1;
      }
      var n';
      n', out := Insert(r, k, maxCap, degree, height);
      if k !in Flat(r) { InsMeans(Flat(r), k); }
      root := Some(n');
    }

    /** Delete, on a tree that has a root. */
    method Delete(k: int) returns (out: Option<int>)
      requires Valid() && root.Some?
      modifies this
      ensures Valid() && root.Some?
      ensures Keys() == old(Keys()) - {k}
      ensures out == if k in old(Keys()) then Some(k) else None
    {
      ghost var h';
      var n';
      DelMeans(Flat(root.value), k);
      n', out, h' := Remove(root.value, k, degree - 1, degree, height, true);
      root, height := Some(n'), h';
    }
  }

  /** Splitting a full root puts a new root with one item on top. */
  lemma {:induction false} RootSplit(r: Node, d: nat, h: nat)
    requires d >= 2 && Shape(r, d, h) && |r.items| == 2 * d - 1
    ensures var (a, m, b) := Split(r, |r.items| / 2);
      Shape(Node([m], [a, b]), d, h + 1) && Flat(Node([m], [a, b])) == Flat(r)
  {
    var (a, m, b) := Split(r, |r.items| / 2);
    SplitJoin(r, |r.items| / 2, d, h);
    TwoChildren(a, m, b);
  }

  lemma {:induction false} TwoChildren(a: Node, m: int, b: Node)
    ensures Flat(Node([m], [a, b])) == Flat(a) + [m] + Flat(b)
  {
    PairAt(Node([m], [a, b]), 0);
  }
}
