/**
 * The nodes of trie/ctrie/ctrie.go: C-nodes with bitmaps, list nodes for full hash
 * collisions, tomb nodes and I-nodes, and what each edit of a node does.
 */
module CtrieNodes {
  import opened Basics

  type Hash = int -> nat

  datatype Entry = Entry(key: int, value: int)

  /** An element of a C-node's array: an I-node, by its name in the store, or an S-node. */
  datatype Branch = I(id: nat) | S(entry: Entry)

  /** A main node: C-node, T-node or L-node. Generation 0 is nil. */
  datatype Main =
    | C(bmp: seq<bool>, branches: seq<Branch>, gen: nat)
    | T(entry: Entry)
    | L(entries: seq<Entry>)

  datatype INode = INode(main: Main, gen: nat)

  type Store = map<nat, INode>

  // -------------------------------------------------------------- hash chunks

  function Pow32(d: nat): (p: nat)
    ensures p > 0
  {
    if d == 0 then 1 else 32 * Pow32(d - 1)
  }

  /** (hashcode >> lev) & 0x1f, where lev is 5 * d. */
  function Chunk(hash: Hash, key: int, d: nat): (i: nat)
    ensures i < 32
  {
    hash(key) / Pow32(d) % 32
  }

  /** Levels 0, 5, ..., 30 hold C-nodes; beyond them chunks are used up. */
  const Depth: nat := 7

  // ------------------------------------------------------------------ C-nodes

  /** flagPos: how many bits below `i` are set, which is the position of bit i's branch. */
  function Rank(bmp: seq<bool>, i: nat): (n: nat)
    requires i <= |bmp|
  {
    if i == 0 then 0 else Rank(bmp, i - 1) + (if bmp[i - 1] then 1 else 0)
  }

  ghost predicate WellFormed(m: Main) {
    m.C? ==> |m.bmp| == 32 && |m.branches| == Rank(m.bmp, 32)
  }

  lemma {:induction false} RankGrows(bmp: seq<bool>, i: nat, j: nat)
    requires i <= j <= |bmp|
    ensures Rank(bmp, i) <= Rank(bmp, j)
    ensures i < j && bmp[i] ==> Rank(bmp, i) < Rank(bmp, j)
  {
    if i < j {
      RankGrows(bmp, i, j - 1);
    }
  }

  lemma {:induction false} RankAfterFlip(bmp: seq<bool>, f: nat, v: bool, i: nat)
    requires f < |bmp| && i <= |bmp| && bmp[f] != v
    ensures Rank(bmp[f := v], i) == if i <= f then Rank(bmp, i) else if v then Rank(bmp, i) + 1 else Rank(bmp, i) - 1
  {
    if i > 0 { RankAfterFlip(bmp, f, v, i - 1); }
  }

  /** The branch for chunk value `i`. */
  function Get(m: Main, i: nat): (b: Option<Branch>)
    requires i < 32
  {
    if m.C? && |m.bmp| == 32 && m.bmp[i] && Rank(m.bmp, i) < |m.branches| then Some(m.branches[Rank(m.bmp, i)]) else None
  }

  /** A set bit has its branch. */
  lemma {:induction false} GetPresent(m: Main, i: nat)
    requires m.C? && WellFormed(m) && i < 32
    ensures Get(m, i).Some? <==> m.bmp[i]
    ensures m.bmp[i] ==> Rank(m.bmp, i) < |m.branches|
  {
    RankGrows(m.bmp, i, 32);
  }

  /** Every branch is the branch of some chunk value. */
  lemma {:induction false} BranchHasBit(bmp: seq<bool>, n: nat, p: nat) returns (i: nat)
    requires n <= |bmp| && p < Rank(bmp, n)
    ensures i < n && bmp[i] && Rank(bmp, i) == p
  {
    if bmp[n - 1] && Rank(bmp, n - 1) == p {
      i := n - 1;
    } else {
      i := BranchHasBit(bmp, n - 1, p);
    }
  }

  /** inserted */
  function Inserted(m: Main, i: nat, b: Branch, gen: nat): (r: Main)
    requires m.C? && WellFormed(m) && i < 32
  {
    RankGrows(m.bmp, i, 32);
    var pos := Rank(m.bmp, i);
    C(m.bmp[i := true], m.branches[..pos] + [b] + m.branches[pos..], gen)
  }

  /** updated */
  function Updated(m: Main, i: nat, b: Branch, gen: nat): (r: Main)
    requires m.C? && WellFormed(m) && i < 32 && m.bmp[i]
  {
    RankGrows(m.bmp, i, 32);
    C(m.bmp, m.branches[Rank(m.bmp, i) := b], gen)
  }

  /** removed */
  function Removed(m: Main, i: nat, gen: nat): (r: Main)
    requires m.C? && WellFormed(m) && i < 32 && m.bmp[i]
  {
    RankGrows(m.bmp, i, 32);
    var pos := Rank(m.bmp, i);
    C(m.bmp[i := false], m.branches[..pos] + m.branches[pos + 1..], gen)
  }

  lemma {:induction false} InsertedGets(m: Main, i: nat, b: Branch, gen: nat, j: nat)
    requires m.C? && WellFormed(m) && i < 32 && !m.bmp[i] && j < 32
    ensures WellFormed(Inserted(m, i, b, gen))
    ensures Get(Inserted(m, i, b, gen), j) == if j == i then Some(b) else Get(m, j)
  {
    var r := Inserted(m, i, b, gen);
    RankAfterFlip(m.bmp, i, true, 32);
    RankAfterFlip(m.bmp, i, true, j);
    GetPresent(m, j);
    RankGrows(m.bmp, i, 32);
    if j < i { RankGrows(m.bmp, j, i); } else { RankGrows(m.bmp, i, j); }
  }

  lemma {:induction false} UpdatedGets(m: Main, i: nat, b: Branch, gen: nat, j: nat)
    requires m.C? && WellFormed(m) && i < 32 && m.bmp[i] && j < 32
    ensures WellFormed(Updated(m, i, b, gen))
    ensures Get(Updated(m, i, b, gen), j) == if j == i then Some(b) else Get(m, j)
  {
    GetPresent(m, i);
    GetPresent(m, j);
    if j < i { RankGrows(m.bmp, j, i); } else { RankGrows(m.bmp, i, j); }
  }

  lemma {:induction false} RemovedGets(m: Main, i: nat, gen: nat, j: nat)
    requires m.C? && WellFormed(m) && i < 32 && m.bmp[i] && j < 32
    ensures WellFormed(Removed(m, i, gen))
    ensures Get(Removed(m, i, gen), j) == if j == i then None else Get(m, j)
  {
    RankAfterFlip(m.bmp, i, false, 32);
    RankAfterFlip(m.bmp, i, false, j);
    GetPresent(m, i);
    GetPresent(m, j);
    if j < i { RankGrows(m.bmp, j, i); } else { RankGrows(m.bmp, i, j); }
  }

  // ------------------------------------------------------------- list nodes

  /** The value of a key in an L-node. */
  function ListFind(es: seq<Entry>, k: int): (v: Option<int>) {
    if es == [] then None else if es[0].key == k then Some(es[0].value) else ListFind(es[1..], k)
  }

  /** lNode.removed: without the first entry of the key. */
  function ListRemoved(es: seq<Entry>, k: int): (r: seq<Entry>) {
    if es == [] then [] else if es[0].key == k then es[1..] else [es[0]] + ListRemoved(es[1..], k)
  }

  /** lNode.inserted */
  function ListInserted(es: seq<Entry>, e: Entry): (r: seq<Entry>) {
    [e] + ListRemoved(es, e.key)
  }

  ghost predicate DistinctKeys(es: seq<Entry>) {
    es == [] || ((forall j :: 1 <= j < |es| ==> es[j].key != es[0].key) && DistinctKeys(es[1..]))
  }

  lemma {:induction false} ListFindAbsent(es: seq<Entry>, k: int)
    requires forall j :: 0 <= j < |es| ==> es[j].key != k
    ensures ListFind(es, k) == None
  {
    if es != [] { ListFindAbsent(es[1..], k); }
  }

  lemma {:induction false} ListRemovedFinds(es: seq<Entry>, k: int, j: int)
    requires DistinctKeys(es)
    ensures DistinctKeys(ListRemoved(es, k))
    ensures ListFind(ListRemoved(es, k), j) == if j == k then None else ListFind(es, j)
    ensures forall e :: e in ListRemoved(es, k) ==> e in es && e.key != k
    ensures |ListRemoved(es, k)| == if ListFind(es, k).Some? then |es| - 1 else |es|
  {
    if es != [] {
      if es[0].key == k {
        ListFindAbsent(es[1..], k);
      } else {
        ListRemovedFinds(es[1..], k, j);
        var r := ListRemoved(es[1..], k);
        assert ListRemoved(es, k)[1..] == r;
        forall i | 0 <= i < |r| ensures r[i].key != es[0].key {
          assert r[i] in r;
          var x :| 0 <= x < |es[1..]| && es[1..][x] == r[i];
          assert es[x + 1].key != es[0].key;
        }
      }
    }
  }

  lemma {:induction false} ListInsertedFinds(es: seq<Entry>, e: Entry, j: int)
    requires DistinctKeys(es)
    ensures DistinctKeys(ListInserted(es, e))
    ensures ListFind(ListInserted(es, e), j) == if j == e.key then Some(e.value) else ListFind(es, j)
  {
    ListRemovedFinds(es, e.key, j);
    var r := ListInserted(es, e);
    assert r[1..] == ListRemoved(es, e.key);
    assert forall i :: 1 <= i < |r| ==> r[i] in ListRemoved(es, e.key);
  }
}
