/**
 * The in-place symmetric merge of sort/symmerge.go: block-swap rotation, the search along
 * the anti-diagonal, the recursive merge and the entry point for lists of any lengths.
 */
module SymMerge {

  /** An element to sort. Compare looks at `rank` alone; `tag` tells equal elements apart. */
  datatype Item = Item(rank: int, tag: int)

  function Compare(a: Item, b: Item): (c: int) { a.rank - b.rank }

  /** Each element may precede the next, and so every later one (see SortedPairs). */
  ghost predicate Sorted(s: seq<Item>) {
    |s| < 2 || (s[0].rank <= s[1].rank && Sorted(s[1..]))
  }

  ghost predicate OrderedPairs(s: seq<Item>) {
    forall i, j :: 0 <= i < j < |s| ==> s[i].rank <= s[j].rank
  }

  lemma {:induction false} SortedPairs(s: seq<Item>)
    ensures Sorted(s) <==> OrderedPairs(s)
  {
    if |s| >= 2 {
      SortedPairs(s[1..]);
      if Sorted(s) {
        forall i, j | 0 <= i < j < |s| ensures s[i].rank <= s[j].rank {
          if i > 0 { assert s[1..][i - 1].rank <= s[1..][j - 1].rank; }
          else if j > 1 { assert s[1..][0].rank <= s[1..][j - 1].rank; }
        }
      }
      if OrderedPairs(s) {
        forall i, j | 0 <= i < j < |s[1..]| ensures s[1..][i].rank <= s[1..][j].rank {
          assert s[i + 1].rank <= s[j + 1].rank;
        }
      }
    }
  }

  // ------------------------------------------------ the merge it computes

  /** The stable two-way merge: on ties the element of `x` comes first. */
  function Merge(x: seq<Item>, y: seq<Item>): (m: seq<Item>)
    ensures |m| == |x| + |y|
    decreases |x| + |y|
  {
    if x == [] then y
    else if y == [] then x
    else if Compare(x[0], y[0]) <= 0 then [x[0]] + Merge(x[1..], y)
    else [y[0]] + Merge(x, y[1..])
  }

  lemma {:induction false} HeadCounts(h: Item, t: seq<Item>, whole: seq<Item>)
    requires whole == [h] + t
    ensures multiset(whole) == multiset{h} + multiset(t)
  {
  }

  lemma {:induction false} TailCounts(s: seq<Item>)
    requires s != []
    ensures multiset(s) == multiset{s[0]} + multiset(s[1..])
  {
    HeadCounts(s[0], s[1..], s);
  }

  lemma {:induction false} MergePermutes(x: seq<Item>, y: seq<Item>)
    ensures multiset(Merge(x, y)) == multiset(x) + multiset(y)
    decreases |x| + |y|
  {
    if x != [] && y != [] {
      if Compare(x[0], y[0]) <= 0 {
        MergePermutes(x[1..], y);
        TailCounts(x);
        HeadCounts(x[0], Merge(x[1..], y), Merge(x, y));
      } else {
        MergePermutes(x, y[1..]);
        TailCounts(y);
        HeadCounts(y[0], Merge(x, y[1..]), Merge(x, y));
      }
    }
  }

  /** What is no more than all of both lists is no more than all of their merge. */
  lemma {:induction false} BelowMerge(x: seq<Item>, y: seq<Item>, rank: int, k: nat)
    requires (forall i :: 0 <= i < |x| ==> rank <= x[i].rank) && (forall i :: 0 <= i < |y| ==> rank <= y[i].rank)
    requires k < |Merge(x, y)|
    ensures rank <= Merge(x, y)[k].rank
  {
    MergePermutes(x, y);
    var e := Merge(x, y)[k];
    assert e in multiset(Merge(x, y));
    assert e in x || e in y;
  }

  lemma {:induction false} HeadSorts(h: Item, t: seq<Item>)
    requires Sorted(t) && (t != [] ==> h.rank <= t[0].rank)
    ensures Sorted([h] + t)
  {
    assert ([h] + t)[1..] == t;
  }

  lemma {:induction false} MergeSorts(x: seq<Item>, y: seq<Item>)
    requires Sorted(x) && Sorted(y)
    ensures Sorted(Merge(x, y))
    decreases |x| + |y|
  {
    if x != [] && y != [] {
      SortedPairs(x);
      SortedPairs(y);
      if Compare(x[0], y[0]) <= 0 {
        MergeSorts(x[1..], y);
        BelowMerge(x[1..], y, x[0].rank, 0);
        HeadSorts(x[0], Merge(x[1..], y));
      } else {
        MergeSorts(x, y[1..]);
        BelowMerge(x, y[1..], y[0].rank, 0);
        HeadSorts(y[0], Merge(x, y[1..]));
      }
    }
  }

  /** The elements of one rank, in order. */
  function OfRank(s: seq<Item>, rank: int): (f: seq<Item>) {
    if s == [] then [] else OneOfRank(s[0], rank) + OfRank(s[1..], rank)
  }

  function OneOfRank(h: Item, rank: int): (f: seq<Item>) { if h.rank == rank then [h] else [] }

  lemma {:induction false} OfRankAbsent(s: seq<Item>, rank: int)
    requires forall i :: 0 <= i < |s| ==> s[i].rank != rank
    ensures OfRank(s, rank) == []
  {
    if s != [] { OfRankAbsent(s[1..], rank); }
  }

  /** Merge is stable: equal elements keep the order of `x` followed by `y`. */
  lemma {:induction false} MergeIsStable(x: seq<Item>, y: seq<Item>, rank: int)
    requires Sorted(x) && Sorted(y)
    ensures OfRank(Merge(x, y), rank) == OfRank(x, rank) + OfRank(y, rank)
    decreases |x| + |y|
  {
    if x != [] && y != [] {
      if Compare(x[0], y[0]) <= 0 {
        MergeIsStable(x[1..], y, rank);
        OfRankHead(x[0], Merge(x[1..], y), Merge(x, y), rank);
        Assoc(OneOfRank(x[0], rank), OfRank(x[1..], rank), OfRank(y, rank));
      } else {
        MergeIsStable(x, y[1..], rank);
        OfRankHead(y[0], Merge(x, y[1..]), Merge(x, y), rank);
        SortedPairs(x);
        if y[0].rank == rank {
          OfRankAbsent(x, rank);
        } else {
          assert OneOfRank(y[0], rank) == [];
        }
      }
    }
  }

  lemma {:induction false} OfRankHead(h: Item, t: seq<Item>, whole: seq<Item>, rank: int)
    requires whole == [h] + t
    ensures OfRank(whole, rank) == OneOfRank(h, rank) + OfRank(t, rank)
  {
    assert whole[1..] == t;
  }

  lemma {:induction false} Assoc(a: seq<Item>, b: seq<Item>, c: seq<Item>)
    ensures a + (b + c) == (a + b) + c
  {
  }

  /** Where two sorted lists may be cut: what the searches establish of the neighbours of the cut. */
  ghost predicate CutsAt(x1: seq<Item>, x2: seq<Item>, y1: seq<Item>, y2: seq<Item>) {
    && Sorted(x1 + x2) && Sorted(y1 + y2)
    && (x1 != [] && y2 != [] ==> Compare(x1[|x1| - 1], y2[0]) <= 0)
    && (y1 != [] && x2 != [] ==> Compare(x2[0], y1[|y1| - 1]) > 0)
  }

  lemma {:induction false} SortedParts(a: seq<Item>, b: seq<Item>)
    requires Sorted(a + b)
    ensures Sorted(a) && Sorted(b)
    ensures forall i, j :: 0 <= i < |a| && 0 <= j < |b| ==> a[i].rank <= b[j].rank
  {
    SortedPairs(a + b);
    SortedPairs(a);
    SortedPairs(b);
    forall i, j | 0 <= i < |a| && 0 <= j < |b| ensures a[i].rank <= b[j].rank {
      assert (a + b)[i].rank <= (a + b)[|a| + j].rank;
    }
    forall i, j | 0 <= i < j < |a| ensures a[i].rank <= a[j].rank {
      assert (a + b)[i].rank <= (a + b)[j].rank;
    }
    forall i, j | 0 <= i < j < |b| ensures b[i].rank <= b[j].rank {
      assert (a + b)[|a| + i].rank <= (a + b)[|a| + j].rank;
    }
  }

  /** Then everything before the cut may precede everything after it. */
  lemma {:induction false} CutOrders(x1: seq<Item>, x2: seq<Item>, y1: seq<Item>, y2: seq<Item>)
    requires CutsAt(x1, x2, y1, y2)
    ensures Sorted(x1) && Sorted(x2) && Sorted(y1) && Sorted(y2)
    ensures forall i, j :: 0 <= i < |x1| && 0 <= j < |x2| ==> x1[i].rank <= x2[j].rank
    ensures forall i, j :: 0 <= i < |x1| && 0 <= j < |y2| ==> x1[i].rank <= y2[j].rank
    ensures forall i, j :: 0 <= i < |y1| && 0 <= j < |x2| ==> y1[i].rank <= x2[j].rank
    ensures forall i, j :: 0 <= i < |y1| && 0 <= j < |y2| ==> y1[i].rank <= y2[j].rank
  {
    SortedParts(x1, x2);
    SortedParts(y1, y2);
    EndsBound(x1);
    EndsBound(x2);
    EndsBound(y1);
    EndsBound(y2);
  }

  lemma {:induction false} EndsBound(s: seq<Item>)
    requires Sorted(s)
    ensures forall i :: 0 <= i < |s| ==> s[0].rank <= s[i].rank <= s[|s| - 1].rank
  {
    SortedPairs(s);
  }

  /** A cut given by its place in each list. */
  ghost predicate CutsIn(x: seq<Item>, i: nat, y: seq<Item>, j: nat) {
    && i <= |x| && j <= |y| && Sorted(x) && Sorted(y)
    && (i > 0 && j < |y| ==> Compare(x[i - 1], y[j]) <= 0)
    && (j > 0 && i < |x| ==> Compare(x[i], y[j - 1]) > 0)
  }

  lemma {:induction false} CutTail(x: seq<Item>, i: nat, y: seq<Item>, j: nat)
    requires CutsIn(x, i, y, j)
    ensures i > 0 ==> CutsIn(x[1..], i - 1, y, j) && (j < |y| ==> Compare(x[0], y[j]) <= 0)
    ensures j > 0 ==> CutsIn(x, i, y[1..], j - 1) && (i < |x| ==> Compare(x[i], y[0]) > 0)
  {
    if i > 1 { EndsBound(x); SortedPairs(x); assert x[0].rank <= x[i - 1].rank; }
    if j > 1 { EndsBound(y); SortedPairs(y); assert y[0].rank <= y[j - 1].rank; }
  }

  /** Such a cut splits the merge in two. */
  lemma {:induction false} MergeSplitsIn(x: seq<Item>, i: nat, y: seq<Item>, j: nat)
    requires CutsIn(x, i, y, j)
    ensures Merge(x, y) == Merge(x[..i], y[..j]) + Merge(x[i..], y[j..])
    decreases i + j
  {
    CutTail(x, i, y, j);
    if i > 0 && (j == 0 || Compare(x[0], y[0]) <= 0) {
      MergeSplitsIn(x[1..], i - 1, y, j);
      CutShifts(x, i);
      TakeLeft(x, y, x[..i], y[..j], Merge(x[i..], y[j..]));
    } else if j > 0 {
      MergeSplitsIn(x, i, y[1..], j - 1);
      CutShifts(y, j);
      TakeRight(x, y, x[..i], y[..j], Merge(x[i..], y[j..]));
    } else {
      assert x[i..] == x && y[j..] == y;
    }
  }

  lemma {:induction false} CutShifts(x: seq<Item>, i: nat)
    requires 0 < i <= |x|
    ensures x[1..][..i - 1] == x[..i][1..] && x[1..][i - 1..] == x[i..]
  {
  }

  lemma {:induction false} MergeSplits(x1: seq<Item>, x2: seq<Item>, y1: seq<Item>, y2: seq<Item>)
    requires CutsAt(x1, x2, y1, y2)
    ensures Merge(x1 + x2, y1 + y2) == Merge(x1, y1) + Merge(x2, y2)
  {
    var x, y := x1 + x2, y1 + y2;
    assert x[..|x1|] == x1 && x[|x1|..] == x2 && y[..|y1|] == y1 && y[|y1|..] == y2;
    MergeSplitsIn(x, |x1|, y, |y1|);
  }

  lemma {:induction false} MergeHeadLeft(x: seq<Item>, y: seq<Item>)
    requires x != [] && (y == [] || Compare(x[0], y[0]) <= 0)
    ensures Merge(x, y) == [x[0]] + Merge(x[1..], y)
  {
    assert x == [x[0]] + x[1..];
  }

  lemma {:induction false} MergeHeadRight(x: seq<Item>, y: seq<Item>)
    requires y != [] && (x == [] || Compare(x[0], y[0]) > 0)
    ensures Merge(x, y) == [y[0]] + Merge(x, y[1..])
  {
    assert y == [y[0]] + y[1..];
  }

  /** Both merges take the same head from their first list, and then agree up to `b`. */
  lemma {:induction false} TakeLeft(x: seq<Item>, y: seq<Item>, x1: seq<Item>, y1: seq<Item>, b: seq<Item>)
    requires x != [] && (y == [] || Compare(x[0], y[0]) <= 0)
    requires x1 != [] && (y1 == [] || Compare(x1[0], y1[0]) <= 0)
    requires x[0] == x1[0] && Merge(x[1..], y) == Merge(x1[1..], y1) + b
    ensures Merge(x, y) == Merge(x1, y1) + b
  {
    Prepend(x[0], Merge(x1[1..], y1), b, Merge(x, y), Merge(x1, y1)) by {
      MergeHeadLeft(x, y);
      MergeHeadLeft(x1, y1);
    }
  }

  /** Both merges take the same head from their second list, and then agree up to `b`. */
  lemma {:induction false} TakeRight(x: seq<Item>, y: seq<Item>, x1: seq<Item>, y1: seq<Item>, b: seq<Item>)
    requires y != [] && (x == [] || Compare(x[0], y[0]) > 0)
    requires y1 != [] && (x1 == [] || Compare(x1[0], y1[0]) > 0)
    requires y[0] == y1[0] && Merge(x, y[1..]) == Merge(x1, y1[1..]) + b
    ensures Merge(x, y) == Merge(x1, y1) + b
  {
    Prepend(y[0], Merge(x1, y1[1..]), b, Merge(x, y), Merge(x1, y1)) by {
      MergeHeadRight(x, y);
      MergeHeadRight(x1, y1);
    }
  }

  lemma {:induction false} Prepend(h: Item, a: seq<Item>, b: seq<Item>, whole: seq<Item>, part: seq<Item>)
    requires whole == [h] + (a + b) && part == [h] + a
    ensures whole == part + b
  {
  }

  // ------------------------------------------------------------- rotation

  /** Exchanging the adjacent blocks [a, b) and [b, c). */
  ghost function Rotated(s: seq<Item>, a: nat, b: nat, c: nat): (r: seq<Item>)
    requires a <= b <= c <= |s|
    ensures |r| == |s|
  {
    seq(|s|, k requires 0 <= k < |s| =>
      if a <= k < a + c - b then s[k - a + b] else if a + c - b <= k < c then s[k - c + b] else s[k])
  }

  /** Exchanging the equally long blocks that start at `a` and `b`. */
  ghost function Swapped(s: seq<Item>, a: nat, b: nat, len: nat): (r: seq<Item>)
    requires a + len <= b && b + len <= |s|
    ensures |r| == |s|
  {
    seq(|s|, k requires 0 <= k < |s| =>
      if a <= k < a + len then s[k - a + b] else if b <= k < b + len then s[k - b + a] else s[k])
  }

  /** symSwap */
  method SwapBlocks(u: array<Item>, start1: nat, start2: nat, end: nat)
    requires start1 + end <= start2 && start2 + end <= u.Length
    modifies u
    ensures u[..] == Swapped(old(u[..]), start1, start2, end)
  {
    var i := 0;
    while i < end
      invariant 0 <= i <= end
      invariant forall k :: 0 <= k < u.Length ==>
        u[k] == old(if start1 <= k < start1 + i then u[k - start1 + start2]
                    else if start2 <= k < start2 + i then u[k - start2 + start1]
                    else u[k])
    {
      u[start1 + i], u[start2 + i] := u[start2 + i], u[start1 + i];
      i := i + 1;
    }
  }

  /** Rotating [i | j] when i > j: swapping the outer blocks of length j leaves [i - j | j]. */
  lemma {:induction false} RotateShortRight(s: seq<Item>, t: seq<Item>, p: nat, i: nat, j: nat)
    requires 0 < j < i <= p && p + j <= |s| && t == Swapped(s, p - i, p, j)
    ensures Rotated(t, p - i + j, p, p + j) == Rotated(s, p - i, p, p + j)
  {
    var r := Rotated(s, p - i, p, p + j);
    forall k | 0 <= k < |s| ensures Rotated(t, p - i + j, p, p + j)[k] == r[k] {}
  }

  /** Rotating [i | j] when i < j: swapping the outer blocks of length i leaves [i | j - i]. */
  lemma {:induction false} RotateShortLeft(s: seq<Item>, t: seq<Item>, p: nat, i: nat, j: nat)
    requires 0 < i < j && i <= p && p + j <= |s| && t == Swapped(s, p - i, p + j - i, i)
    ensures Rotated(t, p - i, p, p + j - i) == Rotated(s, p - i, p, p + j)
  {
    var r := Rotated(s, p - i, p, p + j);
    forall k | 0 <= k < |s| ensures Rotated(t, p - i, p, p + j - i)[k] == r[k] {}
  }

  /** Equal blocks rotate by one swap. */
  lemma {:induction false} RotateEven(s: seq<Item>, a: nat, b: nat, c: nat)
    requires a <= b <= c <= |s| && b - a == c - b
    ensures Swapped(s, a, b, b - a) == Rotated(s, a, b, c)
  {
  }

  /** An empty block needs no rotation. */
  lemma {:induction false} RotateNothing(s: seq<Item>, a: nat, b: nat, c: nat)
    requires a <= b <= c <= |s| && (a == b || b == c)
    ensures Rotated(s, a, b, c) == s
  {
  }

  /** One round of symRotate's loop with i > j: what is left to rotate still yields `goal`. */
  method SwapShortRight(u: array<Item>, p: nat, i: nat, j: nat, ghost goal: seq<Item>)
    requires 0 < j < i <= p && p + j <= u.Length
    requires Rotated(u[..], p - i, p, p + j) == goal
    modifies u
    ensures Rotated(u[..], p - i + j, p, p + j) == goal
  {
    ghost var s := u[..];
    SwapBlocks(u, p - i, p, j);
    RotateShortRight(s, u[..], p, i, j);
  }

  /** One round of symRotate's loop with i < j. */
  method SwapShortLeft(u: array<Item>, p: nat, i: nat, j: nat, ghost goal: seq<Item>)
    requires 0 < i < j && i <= p && p + j <= u.Length
    requires Rotated(u[..], p - i, p, p + j) == goal
    modifies u
    ensures Rotated(u[..], p - i, p, p + j - i) == goal
  {
    ghost var s := u[..];
    SwapBlocks(u, p - i, p + j - i, i);
    RotateShortLeft(s, u[..], p, i, j);
  }

  /** The swap that ends symRotate: both blocks have the same length. */
  method SwapEven(u: array<Item>, p: nat, i: nat, ghost goal: seq<Item>)
    requires i <= p && p + i <= u.Length
    requires Rotated(u[..], p - i, p, p + i) == goal
    modifies u
    ensures u[..] == goal
  {
    ghost var swapped := Swapped(u[..], p - i, p, i);
    assert swapped == goal by { RotateEven(u[..], p - i, p, p + i); }
    SwapBlocks(u, p - i, p, i);
    assert u[..] == swapped;
  }

  /** symRotate */
  method Rotate(u: array<Item>, start1: nat, start2: nat, end: nat)
    requires start1 <= start2 <= end <= u.Length
    modifies u
    ensures u[..] == Rotated(old(u[..]), start1, start2, end)
  {
    ghost var goal := Rotated(u[..], start1, start2, end);
    var i := start2 - start1;
    if i == 0 {
      RotateNothing(u[..], start1, start2, end);
      return;
    }
    var j := end - start2;
    if j == 0 {
      RotateNothing(u[..], start1, start2, end);
      return;
    }
    if i == j {
      SwapEven(u, start2, i, goal);
      return;
    }
    var p := start1 + i;
    while i != j
      invariant 0 < i <= p && 0 < j && p + j <= u.Length
      invariant Rotated(u[..], p - i, p, p + j) == goal
      decreases i + j
    {
      if i > j {
        SwapShortRight(u, p, i, j, goal);
        i := i - j;
      } else {
        SwapShortLeft(u, p, i, j, goal);
        j := j - i;
      }
    }
    SwapEven(u, p, i, goal);
  }

  // ------------------------------------------------------------ searching

  /** symBinarySearch: the answer is a boundary of "u[k] <= u[total - k]", whatever the order of `u`. */
  method BinarySearch(u: array<Item>, first: nat, last: nat, total: nat) returns (start: nat)
    requires first <= last <= u.Length
    requires first < last ==> last - 1 <= total < u.Length + first
    ensures first <= start <= last
    ensures first < start ==> Compare(u[start - 1], u[total - start + 1]) <= 0
    ensures start < last ==> Compare(u[start], u[total - start]) > 0
  {
    start := first;
    var stop := last;
    while start < stop
      invariant first <= start <= stop <= last
      invariant first < start ==> Compare(u[start - 1], u[total - start + 1]) <= 0
      invariant stop < last ==> Compare(u[stop], u[total - stop]) > 0
    {
      var mid := (start + stop) / 2;
      if Compare(u[mid], u[total - mid]) <= 0 {
        start := mid + 1;
      } else {
        stop := mid;
      }
    }
  }

  /** symSearch: the same search across two lists of one length. */
  method SearchLists(u: seq<Item>, w: seq<Item>) returns (start: nat)
    requires |u| == |w|
    ensures start <= |u|
    ensures 0 < start ==> Compare(u[start - 1], w[|w| - start]) <= 0
    ensures start < |u| ==> Compare(u[start], w[|w| - 1 - start]) > 0
  {
    start := 0;
    var stop, p := |u|, |w| - 1;
    while start < stop
      invariant 0 <= start <= stop <= |u|
      invariant 0 < start ==> Compare(u[start - 1], w[|w| - start]) <= 0
      invariant stop < |u| ==> Compare(u[stop], w[p - stop]) > 0
    {
      var mid := (start + stop) / 2;
      if Compare(u[mid], w[p - mid]) <= 0 {
        start := mid + 1;
      } else {
        stop := mid;
      }
    }
  }

  // -------------------------------------------------------------- merging

  /** `t` is `s` with the adjacent runs [a, b) and [b, c) replaced by their stable merge. */
  ghost predicate Merged(s: seq<Item>, t: seq<Item>, a: nat, b: nat, c: nat) {
    && a <= b <= c <= |s| == |t|
    && t[..a] == s[..a] && t[c..] == s[c..]
    && t[a..c] == Merge(s[a..b], s[b..c])
  }

  /** The two runs of `s` are cut at x and y as CutOrders needs it. */
  ghost predicate CutIn(s: seq<Item>, a: nat, x: nat, b: nat, y: nat, c: nat) {
    a <= x <= b <= y <= c <= |s| && CutsAt(s[a..x], s[x..b], s[b..y], s[y..c])
  }

  /** Two sorted runs, one after the other. */
  ghost predicate TwoRuns(s: seq<Item>, a: nat, b: nat, c: nat) {
    a <= b <= c <= |s| && Sorted(s[a..b]) && Sorted(s[b..c])
  }

  /** The pieces of `t` after rotating [x, b) and [b, y) of `s`, which now meet at m. */
  ghost predicate Exchanged(s: seq<Item>, t: seq<Item>, a: nat, x: nat, b: nat, y: nat, c: nat, m: nat) {
    && a <= x <= b <= y <= c <= |s| == |t| && m == x + y - b
    && t[..a] == s[..a] && t[a..x] == s[a..x] && t[x..m] == s[b..y]
    && t[m..y] == s[x..b] && t[y..c] == s[y..c] && t[c..] == s[c..]
  }

  /** A slice of `t` is the slice of `s` that lies d further on. */
  lemma {:induction false} SameSlice(s: seq<Item>, t: seq<Item>, i: nat, j: nat, d: int)
    requires i <= j <= |t| && 0 <= i + d && j + d <= |s|
    requires forall k :: i <= k < j ==> t[k] == s[k + d]
    ensures t[i..j] == s[i + d..j + d]
  {
  }

  lemma {:induction false} RotationExchanges(s: seq<Item>, t: seq<Item>, a: nat, x: nat, b: nat, y: nat, c: nat, m: nat)
    requires a <= x <= b <= y <= c <= |s| && t == Rotated(s, x, b, y) && m == x + y - b
    ensures Exchanged(s, t, a, x, b, y, c, m)
  {
    SameSlice(s, t, 0, a, 0);
    SameSlice(s, t, a, x, 0);
    SameSlice(s, t, x, m, b - x);
    SameSlice(s, t, m, y, b - y);
    SameSlice(s, t, y, c, 0);
    SameSlice(s, t, c, |s|, 0);
  }

  /** The four pieces stay sorted. */
  lemma {:induction false} ExchangedSorted(s: seq<Item>, t: seq<Item>, a: nat, x: nat, b: nat, y: nat, c: nat, m: nat)
    requires Exchanged(s, t, a, x, b, y, c, m) && CutIn(s, a, x, b, y, c)
    ensures TwoRuns(t, a, x, m) && TwoRuns(t, m, y, c)
  {
    CutOrders(s[a..x], s[x..b], s[b..y], s[y..c]);
  }

  lemma {:induction false} SliceOfTail(r: seq<Item>, s: seq<Item>, c: nat, d: nat, e: nat)
    requires c <= d <= e <= |s| == |r| && r[c..] == s[c..]
    ensures r[d..e] == s[d..e] && r[e..] == s[e..]
  {
    forall k | c <= k < |s| ensures r[k] == s[k] {
      assert r[c..][k - c] == s[c..][k - c];
    }
  }

  lemma {:induction false} SecondHalfKept(t: seq<Item>, t1: seq<Item>, m: nat, y: nat, c: nat)
    requires m <= y <= c <= |t| == |t1| && t1[m..] == t[m..]
    ensures t1[m..y] == t[m..y] && t1[y..c] == t[y..c] && t1[c..] == t[c..]
  {
    SliceOfTail(t1, t, m, m, y);
    SliceOfTail(t1, t, m, y, c);
  }

  lemma {:induction false} SliceOfHead(r: seq<Item>, s: seq<Item>, a: nat, m: nat)
    requires a <= m <= |s| == |r| && r[..m] == s[..m]
    ensures r[..a] == s[..a] && r[a..m] == s[a..m]
  {
    forall k | 0 <= k < m ensures r[k] == s[k] {
      assert r[..m][k] == s[..m][k];
    }
  }

  /** Merging the two halves after the rotation is merging the two runs. */
  lemma {:induction false} HalvesMerge(s: seq<Item>, t: seq<Item>, t1: seq<Item>, t2: seq<Item>,
                    a: nat, x: nat, b: nat, y: nat, c: nat, m: nat)
    requires Exchanged(s, t, a, x, b, y, c, m) && CutIn(s, a, x, b, y, c)
    requires Merged(t, t1, a, x, m) && Merged(t1, t2, m, y, c)
    ensures Merged(s, t2, a, b, c)
  {
    var left, right := Merge(s[a..x], s[b..y]), Merge(s[x..b], s[y..c]);
    assert Merge(s[a..b], s[b..c]) == left + right by {
      MergeSplits(s[a..x], s[x..b], s[b..y], s[y..c]);
      SliceHalves(s, a, x, b);
      SliceHalves(s, b, y, c);
    }
    SecondHalfKept(t, t1, m, y, c);
    assert t2[..a] == s[..a] && t2[a..m] == left by { SliceOfHead(t2, t1, a, m); }
    assert t2[m..c] == right;
    SliceHalves(t2, a, m, c);
  }

  /** Two slices of a sorted stretch, side by side. */
  lemma {:induction false} SliceHalves(s: seq<Item>, a: nat, x: nat, b: nat)
    requires a <= x <= b <= |s|
    ensures s[a..x] + s[x..b] == s[a..b]
  {
  }

  /** The first half of symMerge: where on the anti-diagonal to cut the two runs. */
  method FindCut(u: array<Item>, start1: nat, start2: nat, last: nat, ghost s: seq<Item>) returns (start: nat, mid: nat, end: nat)
    requires start1 < start2 < last <= u.Length && s == u[..] && TwoRuns(s, start1, start2, last)
    ensures start1 <= start <= start2 <= end <= last && start1 < mid == start + end - start2 < last
    ensures CutIn(s, start1, start, start2, end, last)
  {
    mid := (start1 + last) / 2;
    start, end := SearchBoth(u, start1, start2, last, mid);
    SearchCuts(s, start1, start, start2, end, last);
  }

  /** The two calls of symBinarySearch in symMerge. */
  method SearchBoth(u: array<Item>, start1: nat, start2: nat, last: nat, mid: nat) returns (start: nat, end: nat)
    requires start1 < start2 < last <= u.Length && mid == (start1 + last) / 2
    ensures start1 <= start <= start2 <= end <= last && mid == start + end - start2
    ensures start1 < start && end < last ==> Compare(u[start - 1], u[end]) <= 0
    ensures start < start2 < end ==> Compare(u[start], u[end - 1]) > 0
  {
    var n := mid + start2;
    if start2 > mid {
      start := BinarySearch(u, n - last, mid, n - 1);
    } else {
      start := BinarySearch(u, start1, start2, n - 1);
    }
    end := n - start;
  }

  lemma {:induction false} SearchCuts(s: seq<Item>, a: nat, x: nat, b: nat, y: nat, c: nat)
    requires a <= x <= b <= y <= c <= |s| && TwoRuns(s, a, b, c)
    requires a < x && y < c ==> Compare(s[x - 1], s[y]) <= 0
    requires x < b < y ==> Compare(s[x], s[y - 1]) > 0
    ensures CutIn(s, a, x, b, y, c)
  {
    SliceHalves(s, a, x, b);
    SliceHalves(s, b, y, c);
  }

  lemma {:induction false} RotationReady(s: seq<Item>, t: seq<Item>, a: nat, x: nat, b: nat, y: nat, c: nat, m: nat)
    requires CutIn(s, a, x, b, y, c) && t == Rotated(s, x, b, y) && m == x + y - b
    ensures Exchanged(s, t, a, x, b, y, c, m)
    ensures TwoRuns(t, a, x, m) && TwoRuns(t, m, y, c)
  {
    RotationExchanges(s, t, a, x, b, y, c, m);
    ExchangedSorted(s, t, a, x, b, y, c, m);
  }

  /** symMerge up to its recursive calls: find the cut and rotate there. */
  method CutAndRotate(u: array<Item>, start1: nat, start2: nat, last: nat, ghost s: seq<Item>)
    returns (start: nat, mid: nat, end: nat, ghost t: seq<Item>)
    requires start1 < start2 < last <= u.Length && s == u[..] && TwoRuns(s, start1, start2, last)
    modifies u
    ensures start1 <= start <= start2 <= end <= last && start1 < mid == start + end - start2 < last
    ensures t == u[..] && Exchanged(s, t, start1, start, start2, end, last, mid) && CutIn(s, start1, start, start2, end, last)
    ensures TwoRuns(t, start1, start, mid) && TwoRuns(t, mid, end, last)
  {
    start, mid, end := FindCut(u, start1, start2, last, s);
    t := RotateTo(u, start, start2, end, s);
    RotationReady(s, t, start1, start, start2, end, last, mid);
  }

  method RotateTo(u: array<Item>, start: nat, start2: nat, end: nat, ghost s: seq<Item>) returns (ghost t: seq<Item>)
    requires start <= start2 <= end <= u.Length && s == u[..]
    modifies u
    ensures t == u[..] && t == Rotated(s, start, start2, end)
  {
    Rotate(u, start, start2, end);
    t := u[..];
  }

  lemma {:induction false} NothingToMerge(s: seq<Item>, a: nat, b: nat, c: nat)
    requires a <= b <= c <= |s| && (a == b || b == c)
    ensures Merged(s, s, a, b, c)
  {
  }

  /** Merging the first half leaves the second as it was. */
  lemma {:induction false} SecondHalfReady(t: seq<Item>, t1: seq<Item>, a: nat, x: nat, m: nat, y: nat, c: nat)
    requires Merged(t, t1, a, x, m) && TwoRuns(t, m, y, c)
    ensures TwoRuns(t1, m, y, c)
  {
    SecondHalfKept(t, t1, m, y, c);
  }

  /** symMerge, of an array with the contents `s`. */
  method MergeInPlace(u: array<Item>, start1: nat, start2: nat, last: nat, ghost s: seq<Item>)
    requires start1 <= start2 <= last <= u.Length && s == u[..] && TwoRuns(s, start1, start2, last)
    modifies u
    ensures Merged(s, u[..], start1, start2, last)
    decreases last - start1
  {
    if start1 < start2 && start2 < last {
      var start, mid, end;
      ghost var t;
      start, mid, end, t := CutAndRotate(u, start1, start2, last, s);
      MergeInPlace(u, start1, start, mid, t);
      ghost var t1 := u[..];
      SecondHalfReady(t, t1, start1, start, mid, end, last);
      MergeInPlace(u, mid, end, last, t1);
      HalvesMerge(s, t, t1, u[..], start1, start, start2, end, last, mid);
    } else {
      NothingToMerge(s, start1, start2, last);
    }
  }

  // -------------------------------------------------- lists of any lengths

  /** append(x, y...) into a fresh array, then symMerge on it. */
  method MergeAppended(x: seq<Item>, y: seq<Item>) returns (r: seq<Item>)
    requires Sorted(x) && Sorted(y)
    ensures r == Merge(x, y)
  {
    var n := |x| + |y|;
    var u := new Item[n](k requires 0 <= k < n => (x + y)[k]);
    ghost var s := x + y;
    assert u[..] == s;
    assert s[0..|x|] == x && s[|x|..n] == y;
    assert TwoRuns(s, 0, |x|, n);
    MergeInPlace(u, 0, |x|, n, s);
    r := u[..];
    assert r == r[0..n];
  }

  /** decomposeForSymMerge: an active site of the given length from the middle of the longer list. */
  method Decompose(length: nat, comparators: seq<Item>) returns (v1: seq<Item>, w: seq<Item>, v2: seq<Item>)
    requires length < |comparators|
    ensures v1 + w + v2 == comparators && |w| == length
    ensures |v1| <= |v2| <= |v1| + 1
  {
    var overhang := (|comparators| - length) / 2;
    v1 := comparators[..overhang];
    w := comparators[overhang..overhang + length];
    v2 := comparators[overhang + length..];
  }

  /**
   * prepareForSymMerge: cut the shorter list `x` and the longer list `y` so that the first
   * parts may be merged before the second parts, into two jobs of equal size.
   */
  method Prepare(u: seq<Item>, w: seq<Item>) returns (u1: seq<Item>, w1: seq<Item>, u2: seq<Item>, w2: seq<Item>)
    requires |u| != |w| && Sorted(u) && Sorted(w)
    ensures var (x, y) := if |u| > |w| then (w, u) else (u, w);
      u1 + u2 == x && w1 + w2 == y
    ensures CutsAt(u1, u2, w1, w2)
    ensures |u1| + |w1| <= |u2| + |w2| <= |u1| + |w1| + 1
  {
    var x, y := u, w;
    if |u| > |w| {
      x, y := w, u;
    }
    var v1, site, v2 := Decompose(|x|, y);
    var i := SearchLists(x, site);
    u1, u2 := x[..i], x[i..];
    w1, w2 := v1 + site[..|site| - i], site[|site| - i..] + v2;
    assert u1 + u2 == x;
    StubsRejoin(v1, site, v2, |site| - i);
  }

  /** Dividing the active site at `k` and giving each part its stub. */
  lemma {:induction false} StubsRejoin(v1: seq<Item>, site: seq<Item>, v2: seq<Item>, k: nat)
    requires k <= |site|
    ensures (v1 + site[..k]) + (site[k..] + v2) == v1 + site + v2
    ensures k < |site| ==> (site[k..] + v2)[0] == site[k]
    ensures k > 0 ==> (v1 + site[..k])[|v1| + k - 1] == site[k - 1]
  {
  }

  /**
   * SymMerge: the stable merge of the two lists, except that when the first is longer by
   * two or more the lists change places, so that ties are then won by the second list.
   */
  method SymMerge(u: seq<Item>, w: seq<Item>) returns (r: seq<Item>)
    requires Sorted(u) && Sorted(w)
    ensures r == if |u| > |w| + 1 then Merge(w, u) else Merge(u, w)
    ensures Sorted(r) && multiset(r) == multiset(u) + multiset(w)
  {
    MergeSorts(u, w);
    MergeSorts(w, u);
    MergePermutes(u, w);
    MergePermutes(w, u);
    if |u| == 0 {
      return w;
    }
    if |w| == 0 {
      return u;
    }
    var diff := |u| - |w|;
    if diff > 1 || diff < -1 {
      var u1, w1, u2, w2 := Prepare(u, w);
      CutOrders(u1, u2, w1, w2);
      MergeSplits(u1, u2, w1, w2);
      var left := MergeAppended(u1, w1);
      var right := MergeAppended(u2, w2);
      r := left + right;
    } else {
      r := MergeAppended(u, w);
    }
  }

  /** Elements that Compare equal. */
  function Copies(n: nat, tag: int): (s: seq<Item>) {
    seq(n, _ => Item(0, tag))
  }

  /** SymMerge(u, w) is the stable merge of `u` before `w`, for all sorted lists of lengths m and n. */
  ghost predicate StableAt(m: nat, n: nat) {
    forall u, w | |u| == m && |w| == n && Sorted(u) && Sorted(w) ::
      (if m > n + 1 then Merge(w, u) else Merge(u, w)) == Merge(u, w)
  }

  lemma {:induction false} CopiesSorted(n: nat, tag: int)
    ensures Sorted(Copies(n, tag))
  {
    SortedPairs(Copies(n, tag));
  }

  lemma {:induction false} StableIffNotMuchLonger(m: nat, n: nat)
    ensures StableAt(m, n) <==> m <= n + 1 || n == 0
  {
    if n > 0 && m > n + 1 {
      var u, w := Copies(m, 0), Copies(n, 1);
      CopiesSorted(m, 0);
      CopiesSorted(n, 1);
      assert Merge(u, w)[0] == Item(0, 0) && Merge(w, u)[0] == Item(0, 1);
    }
  }
}
