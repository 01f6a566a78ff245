/**
 * The Ctrie of trie/ctrie/ctrie.go run by one goroutine at a time: C-nodes with bitmaps,
 * list nodes for full hash collisions, tomb nodes, the clean-and-retry loops, and
 * snapshots that share I-nodes between tries. The hash function is arbitrary. Every gcas
 * here is on an I-node of the root's generation, so it commits (see module Gcas).
 */
module Ctrie {
  import opened Basics
  import opened CtrieNodes
  import opened CtrieStore

  datatype Handle = Handle(root: nat, readOnly: bool)

  /** What a trie is to its users. */
  datatype Trie = Trie(contents: map<int, int>, readOnly: bool)

  /** The trie with root r holds the map m. */
  ghost predicate Shows(hash: Hash, st: Store, r: nat, m: map<int, int>) {
    forall k :: Find(hash, st, r, 0, k) == MapGet(m, k)
  }

  /** Trie a may be read only, or no I-node that it may write is reached from b. */
  ghost predicate Isolated(st: Store, place: Places, a: Handle, b: Handle) {
    a.readOnly || (a.root in st &&
      forall z :: z in st && Reached(st, place, a.root, z) && Reached(st, place, b.root, z) ==> st[z].gen != st[a.root].gen)
  }

  ghost predicate HandleOk(hash: Hash, st: Store, place: Places, h: Handle, t: Trie) {
    h.root in st && h.root in place && place[h.root] == [] && Shows(hash, st, h.root, t.contents) && h.readOnly == t.readOnly
  }

  ghost predicate AllOk(hash: Hash, st: Store, place: Places, tries: seq<Handle>, specs: seq<Trie>) {
    && |tries| == |specs|
    && (forall t :: 0 <= t < |tries| ==> HandleOk(hash, st, place, tries[t], specs[t]))
    && (forall a, b :: 0 <= a < |tries| && 0 <= b < |tries| && a != b ==> Isolated(st, place, tries[a], tries[b]))
  }

  ghost predicate GensBelow(st: Store, g: nat) {
    forall x :: x in st ==> st[x].gen < g
  }

  /** Trie b reaches the same after writes it is isolated from. */
  lemma {:induction false} OtherReached(hash: Hash, st: Store, place: Places, st': Store, place': Places, b: nat, z: nat)
    requires Inv(hash, st, place) && b in st && place[b] == [] && Extends(st, place, st', place')
    requires forall z :: z in st && st'[z] != st[z] ==> !Reached(st, place, b, z)
    requires z in place'
    ensures Reached(st', place', b, z) <==> z in st && Reached(st, place, b, z)
  {
    OthersReach(hash, st, place, st', place', b, place'[z]);
    AtPlace(hash, st, place, b, place'[z]);
  }

  /** Writes of trie a leave trie b as it was, and both as isolated as they were. */
  lemma {:induction false} MovesIsolate(hash: Hash, st: Store, place: Places, st': Store, place': Places, a: Handle, b: Handle, tb: Trie)
    requires Inv(hash, st, place) && Inv(hash, st', place') && Moves(st, place, st', place', a.root)
    requires !a.readOnly && a.root in place && place[a.root] == [] && HandleOk(hash, st, place, b, tb)
    requires Isolated(st, place, a, b) && Isolated(st, place, b, a)
    ensures HandleOk(hash, st', place', b, tb)
    ensures Isolated(st', place', a, b) && Isolated(st', place', b, a)
  {
    forall k ensures Find(hash, st', b.root, 0, k) == MapGet(tb.contents, k) {
      OthersFind(hash, st, place, st', place', b.root, k);
    }
    forall z | z in st' && Reached(st', place', a.root, z) && Reached(st', place', b.root, z)
      ensures z in st && Reached(st, place, a.root, z) && Reached(st, place, b.root, z) && st'[z].gen == st[z].gen
    {
      OtherReached(hash, st, place, st', place', b.root, z);
    }
  }

  lemma {:induction false} MovesIsolateOthers(hash: Hash, st: Store, place: Places, st': Store, place': Places, a: Handle, b: Handle, c: Handle, tb: Trie, tc: Trie)
    requires Inv(hash, st, place) && Inv(hash, st', place') && Moves(st, place, st', place', a.root)
    requires !a.readOnly && HandleOk(hash, st, place, b, tb) && HandleOk(hash, st, place, c, tc)
    requires Isolated(st, place, a, b) && Isolated(st, place, a, c) && Isolated(st, place, b, c)
    ensures Isolated(st', place', b, c)
  {
    forall z | z in st' && Reached(st', place', b.root, z) && Reached(st', place', c.root, z)
      ensures z in st && Reached(st, place, b.root, z) && Reached(st, place, c.root, z) && st'[z].gen == st[z].gen
    {
      OtherReached(hash, st, place, st', place', b.root, z);
      OtherReached(hash, st, place, st', place', c.root, z);
    }
  }

  /** Snapshot isolation: what trie t writes is seen by trie t alone. */
  lemma {:induction false} OnlyItself(hash: Hash, st: Store, place: Places, st': Store, place': Places,
                   tries: seq<Handle>, specs: seq<Trie>, t: nat, m: map<int, int>)
    requires Inv(hash, st, place) && Inv(hash, st', place') && AllOk(hash, st, place, tries, specs)
    requires t < |tries| && !tries[t].readOnly && Moves(st, place, st', place', tries[t].root)
    requires Shows(hash, st', tries[t].root, m)
    ensures AllOk(hash, st', place', tries, specs[t := Trie(m, false)])
  {
    var a := tries[t];
    var specs' := specs[t := Trie(m, false)];
    forall u | 0 <= u < |tries| ensures HandleOk(hash, st', place', tries[u], specs'[u]) {
      if u != t {
        MovesIsolate(hash, st, place, st', place', a, tries[u], specs[u]);
      }
    }
    forall u, w | 0 <= u < |tries| && 0 <= w < |tries| && u != w ensures Isolated(st', place', tries[u], tries[w]) {
      if u == t {
        MovesIsolate(hash, st, place, st', place', a, tries[w], specs[w]);
      } else if w == t {
        MovesIsolate(hash, st, place, st', place', a, tries[u], specs[u]);
      } else {
        MovesIsolateOthers(hash, st, place, st', place', a, tries[u], tries[w], specs[u], specs[w]);
      }
    }
  }

  // --------------------------------------------------------------- snapshots

  lemma {:induction false} RootCopyAt(hash: Hash, st: Store, place: Places, r: nat, n: nat, gen: nat, q: seq<nat>)
    requires Inv(hash, st, place) && r in st && place[r] == [] && n !in st
    ensures At(st[n := INode(st[r].main, gen)], n, q) == if q == [] then Some(n) else At(st, r, q)
    decreases |q|
  {
    if q != [] {
      RootCopyAt(hash, st, place, r, n, gen, q[..|q| - 1]);
      AtPlace(hash, st, place, r, q[..|q| - 1]);
      if |q| == 1 { assert q[..0] == []; }
    }
  }

  /** A handle stays as it is when only I-nodes are added. */
  lemma {:induction false} AddedKeeps(hash: Hash, st: Store, place: Places, n: nat, d: INode, b: Handle, tb: Trie)
    requires Inv(hash, st, place) && n !in st && HandleOk(hash, st, place, b, tb)
    ensures HandleOk(hash, st[n := d], place[n := []], b, tb)
    ensures forall z :: z in place[n := []] ==>
      (Reached(st[n := d], place[n := []], b.root, z) <==> z in st && Reached(st, place, b.root, z))
  {
    var st', place' := st[n := d], place[n := []];
    assert Extends(st, place, st', place');
    forall k ensures Find(hash, st', b.root, 0, k) == MapGet(tb.contents, k) {
      OthersFind(hash, st, place, st', place', b.root, k);
    }
    forall z | z in place' ensures Reached(st', place', b.root, z) <==> z in st && Reached(st, place, b.root, z) {
      OtherReached(hash, st, place, st', place', b.root, z);
    }
  }

  /** A copy of root r in a new generation holds the same, and is isolated from all that r was isolated from. */
  lemma {:induction false} CopyIsolates(hash: Hash, st: Store, place: Places, r: Handle, n: nat, g: nat, tr: Trie, b: Handle, tb: Trie)
    requires Inv(hash, st, place) && HandleOk(hash, st, place, r, tr) && n !in st && GensBelow(st, g)
    requires HandleOk(hash, st, place, b, tb) && Isolated(st, place, b, r)
    ensures Isolated(st[n := INode(st[r.root].main, g)], place[n := []], b, Handle(n, false))
    ensures Isolated(st[n := INode(st[r.root].main, g)], place[n := []], Handle(n, false), b)
  {
    var d := INode(st[r.root].main, g);
    var st', place' := st[n := d], place[n := []];
    AddedKeeps(hash, st, place, n, d, b, tb);
    forall z | z in st' && Reached(st', place', n, z) && Reached(st', place', b.root, z)
      ensures z in st && Reached(st, place, r.root, z) && Reached(st, place, b.root, z)
    {
      RootCopyAt(hash, st, place, r.root, n, g, place'[z]);
    }
  }

  lemma {:induction false} CopyShows(hash: Hash, st: Store, place: Places, r: Handle, n: nat, g: nat, tr: Trie)
    requires Inv(hash, st, place) && HandleOk(hash, st, place, r, tr) && n !in st
    ensures Inv(hash, st[n := INode(st[r.root].main, g)], place[n := []])
    ensures HandleOk(hash, st[n := INode(st[r.root].main, g)], place[n := []], Handle(n, false), Trie(tr.contents, false))
  {
    var d := INode(st[r.root].main, g);
    var st', place' := st[n := d], place[n := []];
    NewRootInv(hash, st, place, n, d);
    AddedKeeps(hash, st, place, n, d, r, tr);
    forall k ensures Find(hash, st', n, 0, k) == MapGet(tr.contents, k) {
      SameMain(hash, st', n, r.root, 0, k);
      assert Find(hash, st', r.root, 0, k) == MapGet(tr.contents, k);
    }
  }

  lemma {:induction false} NewRootInv(hash: Hash, st: Store, place: Places, n: nat, d: INode)
    requires Inv(hash, st, place) && n !in st && MainOk(hash, place, d.main, [])
    ensures Inv(hash, st[n := d], place[n := []])
  {
    var st', place' := st[n := d], place[n := []];
    forall x | x in st' ensures MainOk(hash, place', st'[x].main, place'[x]) {
      if x == n {
        MainOkExtends(hash, place, place', d.main, []);
      } else {
        MainOkExtends(hash, place, place', st[x].main, place[x]);
      }
    }
  }

  /** Trie u gets a new root, isolated from all other tries. */
  lemma {:induction false} NewRootKeeps(hash: Hash, st: Store, place: Places, tries: seq<Handle>, specs: seq<Trie>, u: nat, n: nat, d: INode, t: Trie)
    requires Inv(hash, st, place) && AllOk(hash, st, place, tries, specs) && u < |tries| && n !in st
    requires var st', place' := st[n := d], place[n := []];
      && Inv(hash, st', place') && HandleOk(hash, st', place', Handle(n, false), t)
      && (forall w :: 0 <= w < |tries| && w != u ==>
            Isolated(st', place', tries[w], Handle(n, false)) && Isolated(st', place', Handle(n, false), tries[w]))
    ensures AllOk(hash, st[n := d], place[n := []], tries[u := Handle(n, false)], specs[u := t])
  {
    var st', place' := st[n := d], place[n := []];
    var tries', specs' := tries[u := Handle(n, false)], specs[u := t];
    forall w | 0 <= w < |tries| ensures HandleOk(hash, st', place', tries'[w], specs'[w]) {
      if w != u { AddedKeeps(hash, st, place, n, d, tries[w], specs[w]); }
    }
    forall v, w | 0 <= v < |tries| && 0 <= w < |tries| && v != w ensures Isolated(st', place', tries'[v], tries'[w]) {
      if v != u && w != u {
        AddedKeeps(hash, st, place, n, d, tries[v], specs[v]);
        AddedKeeps(hash, st, place, n, d, tries[w], specs[w]);
        assert Isolated(st, place, tries[v], tries[w]);
      }
    }
  }

  /** Trie u goes over to a copy of its root in a new generation. */
  lemma {:induction false} CopyKeeps(hash: Hash, st: Store, place: Places, tries: seq<Handle>, specs: seq<Trie>, u: nat, n: nat, g: nat)
    requires Inv(hash, st, place) && AllOk(hash, st, place, tries, specs) && u < |tries| && n !in st && GensBelow(st, g)
    ensures Inv(hash, st[n := INode(st[tries[u].root].main, g)], place[n := []])
    ensures AllOk(hash, st[n := INode(st[tries[u].root].main, g)], place[n := []],
                  tries[u := Handle(n, false)], specs[u := Trie(specs[u].contents, false)])
  {
    CopyShows(hash, st, place, tries[u], n, g, specs[u]);
    forall w | 0 <= w < |tries| && w != u
      ensures Isolated(st[n := INode(st[tries[u].root].main, g)], place[n := []], tries[w], Handle(n, false))
      ensures Isolated(st[n := INode(st[tries[u].root].main, g)], place[n := []], Handle(n, false), tries[w])
    {
      CopyIsolates(hash, st, place, tries[u], n, g, specs[u], tries[w], specs[w]);
    }
    NewRootKeeps(hash, st, place, tries, specs, u, n, INode(st[tries[u].root].main, g), Trie(specs[u].contents, false));
  }

  /** Two read-only handles for one trie. */
  lemma {:induction false} ShareKeeps(hash: Hash, st: Store, place: Places, tries: seq<Handle>, specs: seq<Trie>, t: nat)
    requires AllOk(hash, st, place, tries, specs) && t < |tries|
    ensures var h, s := Handle(tries[t].root, true), Trie(specs[t].contents, true);
      AllOk(hash, st, place, tries[t := h] + [h], specs[t := s] + [s])
  {
    var h, s := Handle(tries[t].root, true), Trie(specs[t].contents, true);
    var tries', specs' := tries[t := h] + [h], specs[t := s] + [s];
    forall w | 0 <= w < |tries'| ensures HandleOk(hash, st, place, tries'[w], specs'[w]) {
      if w < |tries| && w != t { assert tries'[w] == tries[w] && specs'[w] == specs[w]; }
      assert HandleOk(hash, st, place, tries[t], specs[t]);
    }
    forall v, w | 0 <= v < |tries'| && 0 <= w < |tries'| && v != w ensures Isolated(st, place, tries'[v], tries'[w]) {
      if v < |tries| && v != t {
        if w < |tries| && w != t {
          assert Isolated(st, place, tries[v], tries[w]);
        } else {
          assert Isolated(st, place, tries[v], tries[t]);
        }
      }
    }
  }

  /** An empty root in a new generation. */
  function EmptyMain(gen: nat): (m: Main) { C(seq(32, _ => false), [], gen) }

  lemma {:induction false} RankOfNone(n: nat)
    requires n <= 32
    ensures Rank(seq(32, _ => false), n) == 0
  {
    if n > 0 { RankOfNone(n - 1); }
  }

  lemma {:induction false} EmptyShows(hash: Hash, st: Store, place: Places, n: nat, gen: nat, g: nat)
    requires n in st && st[n] == INode(EmptyMain(gen), g)
    ensures MainOk(hash, place, EmptyMain(gen), []) && Shows(hash, st, n, map[])
  {
    RankOfNone(32);
    forall k ensures Find(hash, st, n, 0, k) == MapGet(map[], k) {
      FindUnfolds(hash, st, n, 0, k);
      assert FindBranch(hash, st, None, 1, k) == None;
    }
  }

  lemma {:induction false} EmptyAt(st: Store, n: nat, gen: nat, g: nat, q: seq<nat>)
    requires n in st && st[n] == INode(EmptyMain(gen), g)
    ensures At(st, n, q) == if q == [] then Some(n) else None
    decreases |q|
  {
    if q != [] { EmptyAt(st, n, gen, g, q[..|q| - 1]); }
  }

  /** Clear */
  lemma {:induction false} ClearKeeps(hash: Hash, st: Store, place: Places, tries: seq<Handle>, specs: seq<Trie>, u: nat, n: nat, g: nat)
    requires Inv(hash, st, place) && AllOk(hash, st, place, tries, specs) && u < |tries| && n !in st && GensBelow(st, g)
    ensures Inv(hash, st[n := INode(EmptyMain(g), g)], place[n := []])
    ensures AllOk(hash, st[n := INode(EmptyMain(g), g)], place[n := []], tries[u := Handle(n, false)], specs[u := Trie(map[], false)])
  {
    var d := INode(EmptyMain(g), g);
    var st', place' := st[n := d], place[n := []];
    EmptyShows(hash, st', place, n, g, g);
    NewRootInv(hash, st, place, n, d);
    forall w | 0 <= w < |tries| && w != u
      ensures Isolated(st', place', tries[w], Handle(n, false)) && Isolated(st', place', Handle(n, false), tries[w])
    {
      AddedKeeps(hash, st, place, n, d, tries[w], specs[w]);
      forall z | z in st' && Reached(st', place', n, z) ensures z == n { EmptyAt(st', n, g, g, place'[z]); }
    }
    NewRootKeeps(hash, st, place, tries, specs, u, n, d, Trie(map[], false));
  }

  /** The tries that descend from one New by snapshots, and the I-nodes they share. */
  class Tries {
    const hash: Hash
    var st: Store
    var next: nat
    var nextGen: nat
    var tries: seq<Handle>
    ghost var place: Places
    ghost var specs: seq<Trie>

    ghost predicate Sound() reads this {
      Inv(hash, st, place) && Bounded(st, next) && AllCompact(st, place)
    }

    ghost predicate Grew(st0: Store, place0: Places) reads this {
      && (forall z :: z in st0 ==> z in st && st[z] == st0[z])
      && (forall z :: z in place0 ==> z in place && place[z] == place0[z])
    }

    /** A new I-node. */
    method Alloc(m: Main, gen: nat, ghost p: seq<nat>) returns (n: nat)
      requires Bounded(st, next)
      modifies this`st, this`next, this`place
      ensures n == old(next) && n !in old(st) && st == old(st)[n := INode(m, gen)] && place == old(place)[n := p] && Bounded(st, next)
    {
      n := next;
      st := st[n := INode(m, gen)];
      place := place[n := p];
      next := n + 1;
    }

    /** A new I-node over newMainNode(x, y). */
    method NewPair(x: Entry, y: Entry, d: nat, gen: nat, ghost p: seq<nat>, ghost st0: Store, ghost place0: Places, ghost r: nat)
      returns (c: nat)
      requires Sound() && d == |p| <= Depth && x.key != y.key
      requires Matches(hash, x.key, p) && Matches(hash, y.key, p)
      requires Added(hash, st0, place0, st, place, r) && gen == st0[r].gen
      modifies this`st, this`next, this`place
      ensures Sound() && Added(hash, st0, place0, st, place, r) && Grew(old(st), old(place))
      ensures c in st && c in place && place[c] == p && st[c].gen == gen
      ensures c in st.Keys - old(st).Keys && Closed(st, st.Keys - old(st).Keys)
      ensures IsPair(hash, st, c, d, x, y)
      decreases Depth - d, 1
    {
      var m := NewMain(x, y, d, gen, p, st0, place0, r);
      ghost var st1, place1 := st, place;
      CompactNew(st, place, next, m, gen, p);
      c := Alloc(m, gen, p);
      PairAdded(hash, st0, place0, r, old(st).Keys, st1, place1, m, p, x, y, c, gen);
    }

    /** newMainNode */
    method NewMain(x: Entry, y: Entry, d: nat, gen: nat, ghost p: seq<nat>, ghost st0: Store, ghost place0: Places, ghost r: nat)
      returns (m: Main)
      requires Sound() && d == |p| <= Depth && x.key != y.key
      requires Matches(hash, x.key, p) && Matches(hash, y.key, p)
      requires Added(hash, st0, place0, st, place, r) && gen == st0[r].gen
      modifies this`st, this`next, this`place
      ensures Sound() && Added(hash, st0, place0, st, place, r) && Grew(old(st), old(place))
      ensures MainOk(hash, place, m, p)
      ensures KidsIn(m, st.Keys - old(st).Keys) && Closed(st, st.Keys - old(st).Keys)
      ensures PairMain(hash, st, m, d, x, y) && Compact(m)
      decreases Depth - d, 0
    {
      if d < Depth {
        var i, j := Chunk(hash, x.key, d), Chunk(hash, y.key, d);
        if i == j {
          ChildPlace(hash, p, i, x.key);
          ChildPlace(hash, p, i, y.key);
          var c := NewPair(x, y, d + 1, gen, p + [i], st0, place0, r);
          m := C(Bits(i, i), [I(c)], gen);
          PairBelow(hash, st, place, p, x, y, gen, c);
          KidsInMore(m, {c}, st.Keys - old(st).Keys);
        } else {
          m := if i < j then C(Bits(i, j), [S(x), S(y)], gen) else C(Bits(j, i), [S(y), S(x)], gen);
          PairOfEntries(hash, st, place, m, p, x, y, gen);
          KidsInMore(m, {}, st.Keys - old(st).Keys);
        }
      } else {
        m := L([y, x]);
        PairInList(hash, st, place, p, x, y);
      }
    }

    /** copyToGen, for the I-node in branch j of x. */
    method CopyToGen(c: nat, gen: nat, ghost st0: Store, ghost place0: Places, ghost r: nat, ghost x: nat, ghost j: nat) returns (b: Branch)
      requires Sound() && Added(hash, st0, place0, st, place, r) && gen == st0[r].gen
      requires x in st0 && st0[x].main.C? && r in st0 && place0[r] == [] && Reached(st0, place0, r, x)
      requires j < |st0[x].main.branches| && st0[x].main.branches[j] == I(c)
      modifies this`st, this`next, this`place
      ensures Sound() && Added(hash, st0, place0, st, place, r) && Grew(old(st), old(place))
      ensures CopyOf(st0, place0, st, place, I(c), b, gen)
    {
      CopyAdded(hash, st0, place0, st, place, r, x, j, next, gen);
      assert CompactAt(st, place, c);
      CompactNew(st, place, next, st[c].main, gen, place[c]);
      var n := Alloc(st[c].main, gen, place[c]);
      b := I(n);
    }

    /** renewed: the C-node of x with its I-nodes copied to the generation. */
    method Renewed(x: nat, gen: nat, ghost r: nat) returns (rn: Main)
      requires Sound() && x in st && st[x].main.C? && r in st && place[r] == [] && Reached(st, place, r, x)
      requires gen == st[r].gen
      modifies this`st, this`next, this`place
      ensures Sound() && Added(hash, old(st), old(place), st, place, r)
      ensures Renews(old(st), old(place), st, place, old(st)[x].main, rn, gen) && rn.gen == gen
    {
      ghost var st0, place0 := st, place;
      var m := st[x].main;
      var arr: seq<Branch>, j := [], 0;
      while j < |m.branches|
        invariant 0 <= j == |arr| <= |m.branches|
        invariant Sound() && Added(hash, st0, place0, st, place, r)
        invariant Copies(st0, place0, st, place, m.branches, arr, gen)
      {
        ghost var st1, place1 := st, place;
        var b := m.branches[j];
        if b.I? {
          b := CopyToGen(b.id, gen, st0, place0, r, x, j);
        }
        CopiesMore(st0, place0, st1, place1, st, place, m.branches, arr, gen, b);
        arr := arr + [b];
        j := j + 1;
      }
      rn := C(m.bmp, arr, gen);
    }

    /** toCompressed, without the contraction. */
    method Compress(x: nat) returns (m': Main)
      requires x in st && st[x].main.C?
      ensures Tidied(st, st[x].main, m')
      ensures forall j :: 0 <= j < |st[x].main.branches| ==> m'.branches[j] == Resurrect(st, st[x].main.branches[j])
    {
      var m := st[x].main;
      var arr: seq<Branch>, j := [], 0;
      while j < |m.branches|
        invariant 0 <= j == |arr| <= |m.branches|
        invariant forall n :: 0 <= n < j ==> arr[n] == Resurrect(st, m.branches[n])
      {
        arr := arr + [Resurrect(st, m.branches[j])];
        j := j + 1;
      }
      m' := C(m.bmp, arr, 0);
    }

    /** clean, whose effect on the path of k is that a tomb on it is gone. */
    method Clean(x: nat, d: nat, ghost r: nat, ghost k: int)
      requires Sound() && r in st && Here(hash, st, place, r, x, d, k, st[r].gen)
      modifies this`st
      ensures Sound() && Moves(old(st), place, st, place, r) && Kept(hash, old(st), st, r)
      ensures TombNext(hash, old(st), x, d, k) ==> PathLen(hash, st, r, 0, k) < PathLen(hash, old(st), r, 0, k)
    {
      if st[x].main.C? {
        var m' := Compress(x);
        ghost var i := Chunk(hash, k, d);
        ghost var st0 := st;
        TidyWrites(hash, st, place, r, x, m');
        assert CompactAt(st, place, x);
        CompactWrite(st, place, x, ToContracted(m', d), st[x].gen);
        st := st[x := INode(ToContracted(m', d), st[x].gen)];
        Cleaned(hash, st0, place, st, r, x, m', k);
      }
    }

    /** gcas of a renewed C-node: the I-nodes below x are then of the root's generation. */
    method Renew(x: nat, d: nat, startGen: nat, ghost r: nat, ghost k: int)
      requires Sound() && Here(hash, st, place, r, x, d, k, startGen) && st[x].main.C?
      modifies this`st, this`next, this`place
      ensures Sound() && Moves(old(st), old(place), st, place, r) && Kept(hash, old(st), st, r)
      ensures PathLen(hash, st, r, 0, k) <= PathLen(hash, old(st), r, 0, k)
      ensures Here(hash, st, place, r, x, d, k, startGen) && st[x].main.C? && Stale(hash, st, x, d, k, startGen) == 0
      ensures forall parent :: Above(old(st), old(place), r, x, parent, startGen) ==> Above(st, place, r, x, parent, startGen)
    {
      var rn := Renewed(x, startGen, r);
      RenewWrites(hash, old(st), old(place), st, place, r, x, rn, k);
      WriteRenewed(old(st), old(place), x, rn, startGen);
      st := st[x := INode(rn, st[x].gen)];
      StepStays(hash, old(st), old(place), st, place, r, x, x);
      forall parent | Above(old(st), old(place), r, x, parent, startGen) ensures Above(st, place, r, x, parent, startGen) {
        if place[x] != [] {
          StepStays(hash, old(st), old(place), st, place, r, x, parent);
        }
      }
    }

    lemma {:induction false} WriteRenewed(st0: Store, place0: Places, x: nat, rn: Main, gen: nat)
      requires AllCompact(st0, place0) && AllCompact(st, place) && x in st0 && x in place0 && x in st && x in place && place[x] == place0[x]
      requires Renews(st0, place0, st, place, st0[x].main, rn, gen)
      ensures AllCompact(st[x := INode(rn, st[x].gen)], place)
    {
      assert CompactAt(st0, place0, x);
      if place[x] != [] { RenewedIsCompact(st0, place0, st, place, st0[x].main, rn, gen); }
      CompactWrite(st, place, x, rn, st[x].gen);
    }

    /** The edited C-node of x is compact. */
    lemma {:induction false} WriteEdited(st0: Store, place0: Places, x: nat, rn: Main, i: nat, b: Branch, gen: nat, m: Main)
      requires AllCompact(st0, place0) && AllCompact(st, place) && x in st0 && x in place0 && x in place && place[x] == place0[x]
      requires st0[x].main.C? && rn.C? && rn.bmp == st0[x].main.bmp && WellFormed(st0[x].main) && WellFormed(rn) && i < 32
      requires if rn.bmp[i] then m == Updated(rn, i, b, gen) && (b.I? || (Get(st0[x].main, i).Some? && Get(st0[x].main, i).value.S?))
               else m == Inserted(rn, i, b, gen)
      ensures AllCompact(st[x := INode(m, gen)], place)
    {
      assert CompactAt(st0, place0, x);
      if place[x] != [] { EditIsCompact(st0[x].main, rn, i, b, gen); }
      CompactWrite(st, place, x, m, gen);
    }

    /** The C-node of x, renewed if it is of another generation. */
    method Ready(x: nat, ghost r: nat) returns (rn: Main)
      requires Sound() && x in st && st[x].main.C? && r in st && place[r] == [] && Reached(st, place, r, x)
      requires st[x].gen == st[r].gen
      modifies this`st, this`next, this`place
      ensures Sound() && Added(hash, old(st), old(place), st, place, r)
      ensures Rebuilt(hash, old(st), old(place), st, place, r, x, rn)
    {
      rn := st[x].main;
      if rn.gen != st[x].gen {
        rn := Renewed(x, st[x].gen, r);
        RenewedIsRebuilt(hash, old(st), old(place), st, place, r, x, rn, st[x].gen);
      } else {
        RebuiltSelf(hash, st, place, r, x);
      }
    }

    /** iinsert where the bit of the key is not set. */
    method InsertEntry(x: nat, e: Entry, d: nat, ghost r: nat)
      requires Sound() && r in st && Here(hash, st, place, r, x, d, e.key, st[r].gen)
      requires st[x].main.C? && d < Depth && Get(st[x].main, Chunk(hash, e.key, d)) == None
      modifies this`st, this`next, this`place
      ensures Sound() && Moves(old(st), old(place), st, place, r) && Put(hash, old(st), st, r, e)
    {
      var i := Chunk(hash, e.key, d);
      var rn := Ready(x, r);
      assert MainOk(hash, old(place), old(st)[x].main, old(place)[x]);
      GetPresent(old(st)[x].main, i);
      InsertedEdits(rn, i, S(e), st[x].gen);
      EntryWrites(hash, old(st), old(place), st, place, r, x, rn, e, Inserted(rn, i, S(e), st[x].gen));
      WriteEdited(old(st), old(place), x, rn, i, S(e), st[x].gen, Inserted(rn, i, S(e), st[x].gen));
      st := st[x := INode(Inserted(rn, i, S(e), st[x].gen), st[x].gen)];
    }

    /** iinsert where the key is there. */
    method Overwrite(x: nat, e: Entry, d: nat, ghost r: nat, ghost e0: Entry)
      requires Sound() && r in st && Here(hash, st, place, r, x, d, e.key, st[r].gen)
      requires st[x].main.C? && d < Depth && Get(st[x].main, Chunk(hash, e.key, d)) == Some(S(e0)) && e0.key == e.key
      modifies this`st
      ensures Sound() && Moves(old(st), place, st, place, r) && Put(hash, old(st), st, r, e)
    {
      var i := Chunk(hash, e.key, d);
      var cn := st[x].main;
      assert MainOk(hash, place, cn, place[x]);
      RebuiltSelf(hash, st, place, r, x);
      UpdatedEdits(cn, i, S(e), st[x].gen);
      EntryWrites(hash, st, place, st, place, r, x, cn, e, Updated(cn, i, S(e), st[x].gen));
      WriteEdited(st, place, x, cn, i, S(e), st[x].gen, Updated(cn, i, S(e), st[x].gen));
      st := st[x := INode(Updated(cn, i, S(e), st[x].gen), st[x].gen)];
    }

    /** iinsert where another key is in the way. */
    method Extend(x: nat, e: Entry, d: nat, ghost r: nat, e0: Entry)
      requires Sound() && r in st && Here(hash, st, place, r, x, d, e.key, st[r].gen)
      requires st[x].main.C? && d < Depth && Get(st[x].main, Chunk(hash, e.key, d)) == Some(S(e0)) && e0.key != e.key
      modifies this`st, this`next, this`place
      ensures Sound() && Moves(old(st), old(place), st, place, r) && Put(hash, old(st), st, r, e)
    {
      var i := Chunk(hash, e.key, d);
      assert MainOk(hash, place, st[x].main, place[x]);
      assert BranchOk(hash, place, Get(st[x].main, i), place[x], i);
      GetPresent(st[x].main, i);
      ghost var p := place[x];
      ChildPlace(hash, p, i, e0.key);
      ChildPlace(hash, p, i, e.key);
      var rn := Ready(x, r);
      ghost var st1, place1 := st, place;
      var gen := st[x].gen;
      var c := NewPair(e0, e, d + 1, gen, p + [i], old(st), old(place), r);
      UpdatedEdits(rn, i, I(c), gen);
      PairWrites(hash, old(st), old(place), st1, place1, st, place, r, x, rn, e0, e, Updated(rn, i, I(c), gen), c);
      WriteEdited(old(st), old(place), x, rn, i, I(c), gen, Updated(rn, i, I(c), gen));
      st := st[x := INode(Updated(rn, i, I(c), gen), gen)];
    }

    /** iinsert into an L-node. */
    method InsertInList(x: nat, e: Entry, ghost d: nat, ghost r: nat)
      requires Sound() && r in st && Here(hash, st, place, r, x, d, e.key, st[r].gen) && st[x].main.L?
      modifies this`st
      ensures Sound() && Moves(old(st), place, st, place, r) && Put(hash, old(st), st, r, e)
    {
      var w := L(ListInserted(st[x].main.entries, e));
      ListWrites(hash, st, place, r, x, e, w);
      assert CompactAt(st, place, x);
      ListShrinksByOne(st[x].main.entries, e.key);
      CompactWrite(st, place, x, w, st[x].gen);
      st := st[x := INode(w, st[x].gen)];
      PutInList(hash, old(st), place, st, place, r, x, e);
    }

    /** iinsert at I-node i: on false the path of the key has become shorter. */
    method Iinsert(i: nat, e: Entry, d: nat, parent: nat, startGen: nat, ghost r: nat) returns (ok: bool)
      requires Sound() && Here(hash, st, place, r, i, d, e.key, startGen) && Above(st, place, r, i, parent, startGen)
      modifies this`st, this`next, this`place
      ensures Sound() && Moves(old(st), old(place), st, place, r)
      ensures ok ==> Put(hash, old(st), st, r, e)
      ensures !ok ==> Kept(hash, old(st), st, r) && PathLen(hash, st, r, 0, e.key) < PathLen(hash, old(st), r, 0, e.key)
      decreases Left(d), Stale(hash, st, i, d, e.key, startGen)
    {
      assert MainOk(hash, place, st[i].main, place[i]);
      match st[i].main {
        case C(bmp, branches, _) =>
          var idx := Chunk(hash, e.key, d);
          GetPresent(st[i].main, idx);
          if !bmp[idx] {
            InsertEntry(i, e, d, r);
            return true;
          }
          match branches[Rank(bmp, idx)] {
            case I(c) =>
              ChildHere(hash, st, place, r, i, d, e.key, startGen, c);
              if st[c].gen == startGen {
                ok := Iinsert(c, e, d + 1, i, startGen, r);
              } else {
                Renew(i, d, startGen, r, e.key);
                ghost var st1, place1 := st, place;
                ok := Iinsert(i, e, d, parent, startGen, r);
                MovesTrans(old(st), old(place), st1, place1, st, place, r);
              }
            case S(sn) =>
              if sn.key != e.key {
                Extend(i, e, d, r, sn);
              } else {
                Overwrite(i, e, d, r, sn);
              }
              ok := true;
          }
        case T(_) =>
          ParentSlot(hash, st, place, r, i, parent, e.key);
          Clean(parent, d - 1, r, e.key);
          ok := false;
        case L(_) =>
          InsertInList(i, e, d, r);
          ok := true;
      }
    }

    /** ilookup where the branch is an I-node. */
    method LookupBelow(i: nat, c: nat, k: int, d: nat, parent: nat, startGen: nat, ghost r: nat) returns (v: Option<int>, ok: bool)
      requires Sound() && Here(hash, st, place, r, i, d, k, startGen) && Above(st, place, r, i, parent, startGen)
      requires d < Depth && Get(st[i].main, Chunk(hash, k, d)) == Some(I(c))
      modifies this`st, this`next, this`place
      ensures Sound() && Moves(old(st), old(place), st, place, r) && Kept(hash, old(st), st, r)
      ensures ok ==> v == Find(hash, old(st), r, 0, k)
      ensures !ok ==> PathLen(hash, st, r, 0, k) < PathLen(hash, old(st), r, 0, k)
      decreases Left(d), Stale(hash, st, i, d, k, startGen), 0
    {
      ChildHere(hash, st, place, r, i, d, k, startGen, c);
      if st[c].gen == startGen {
        v, ok := Ilookup(c, k, d + 1, i, startGen, r);
      } else {
        Renew(i, d, startGen, r, k);
        ghost var st1, place1 := st, place;
        v, ok := Ilookup(i, k, d, parent, startGen, r);
        MovesTrans(old(st), old(place), st1, place1, st, place, r);
      }
    }

    /** ilookup at I-node i of a trie that may be written: it renews and cleans on its way. */
    method Ilookup(i: nat, k: int, d: nat, parent: nat, startGen: nat, ghost r: nat) returns (v: Option<int>, ok: bool)
      requires Sound() && Here(hash, st, place, r, i, d, k, startGen) && Above(st, place, r, i, parent, startGen)
      modifies this`st, this`next, this`place
      ensures Sound() && Moves(old(st), old(place), st, place, r) && Kept(hash, old(st), st, r)
      ensures ok ==> v == Find(hash, old(st), r, 0, k)
      ensures !ok ==> PathLen(hash, st, r, 0, k) < PathLen(hash, old(st), r, 0, k)
      decreases Left(d), Stale(hash, st, i, d, k, startGen), 1
    {
      FindPasses(hash, st, place, r, i, k);
      assert MainOk(hash, place, st[i].main, place[i]);
      match st[i].main {
        case C(bmp, branches, _) =>
          var idx := Chunk(hash, k, d);
          GetPresent(st[i].main, idx);
          FindUnfolds(hash, st, i, d, k);
          if !bmp[idx] {
            return None, true;
          }
          match branches[Rank(bmp, idx)] {
            case I(c) =>
              v, ok := LookupBelow(i, c, k, d, parent, startGen, r);
            case S(sn) =>
              v := if sn.key == k then Some(sn.value) else None;
              ok := true;
          }
        case T(_) =>
          ParentSlot(hash, st, place, r, i, parent, k);
          Clean(parent, d - 1, r, k);
          v, ok := None, false;
        case L(es) =>
          ListFindIs(hash, st, place, i, k);
          v, ok := ListFind(es, k), true;
      }
    }

    /** ilookup at I-node i of a read-only trie: it changes nothing. */
    method IlookupReadOnly(i: nat, k: int, d: nat, ghost r: nat) returns (v: Option<int>)
      requires Sound() && r in st && place[r] == [] && i in st && Reached(st, place, r, i)
      requires |place[i]| == d && Matches(hash, k, place[i])
      ensures v == Find(hash, st, i, d, k)
      decreases Left(d)
    {
      assert MainOk(hash, place, st[i].main, place[i]);
      match st[i].main {
        case C(bmp, branches, _) =>
          var idx := Chunk(hash, k, d);
          GetPresent(st[i].main, idx);
          FindUnfolds(hash, st, i, d, k);
          if !bmp[idx] {
            return None;
          }
          match branches[Rank(bmp, idx)] {
            case I(c) =>
              ChildReached(hash, st, place, r, i, idx);
              MatchesChild(hash, k, place[c], place[i], idx);
              v := IlookupReadOnly(c, k, d + 1, r);
            case S(sn) =>
              v := if sn.key == k then Some(sn.value) else None;
          }
        case T(tn) =>
          v := if tn.key == k then Some(tn.value) else None;
        case L(es) =>
          v := ListFind(es, k);
      }
    }

    /** cleanParent: a tomb just made is resurrected in its parent. */
    method CleanParent(p: nat, i: nat, k: int, d: nat, ghost r: nat)
      requires Sound() && r in st && Here(hash, st, place, r, p, d, k, st[r].gen) && i in st
      modifies this`st
      ensures Sound() && Moves(old(st), place, st, place, r) && Kept(hash, old(st), st, r)
      ensures old(st)[i].main.T? ==> p in st && Get(st[p].main, Chunk(hash, k, d)) != Some(I(i))
    {
      var pm, main := st[p].main, st[i].main;
      if pm.C? {
        assert MainOk(hash, place, pm, place[p]);
        var idx := Chunk(hash, k, d);
        GetPresent(pm, idx);
        if pm.bmp[idx] {
          if pm.branches[Rank(pm.bmp, idx)] == I(i) && main.T? {
            var ncn := Updated(pm, idx, S(main.entry), st[i].gen);
            UpdatedGets(pm, idx, S(main.entry), st[i].gen, idx);
            TidyWrites(hash, st, place, r, p, ncn);
            assert CompactAt(st, place, p);
            CompactWrite(st, place, p, ToContracted(ncn, d), st[p].gen);
            st := st[p := INode(ToContracted(ncn, d), st[p].gen)];
            StepMoves(hash, old(st), place, st, place, r, p);
            KeptIfLike(hash, old(st), place, st, place, r, p, ncn);
          }
        }
      }
    }

    /** iremove where the key is there. */
    method RemoveEntry(i: nat, e: Entry, d: nat, parent: nat, ghost r: nat)
      requires Sound() && r in st && Here(hash, st, place, r, i, d, e.key, st[r].gen)
      requires Above(st, place, r, i, parent, st[r].gen)
      requires st[i].main.C? && d < Depth && Get(st[i].main, Chunk(hash, e.key, d)) == Some(S(e))
      modifies this`st
      ensures Sound() && Moves(old(st), place, st, place, r) && Dropped(hash, old(st), st, r, e.key)
      ensures Find(hash, old(st), r, 0, e.key) == Some(e.value)
      ensures d > 0 && ToContracted(Removed(old(st)[i].main, Chunk(hash, e.key, d), old(st)[i].gen), d).T? ==>
        parent in st && Get(st[parent].main, Chunk(hash, e.key, d - 1)) != Some(I(i))
    {
      var cn, idx := st[i].main, Chunk(hash, e.key, d);
      assert MainOk(hash, place, cn, place[i]);
      GetPresent(cn, idx);
      var ncn := Removed(cn, idx, st[i].gen);
      RemovedEdits(cn, idx, st[i].gen);
      RemovalWrites(hash, st, place, r, i, e, ncn);
      assert CompactAt(st, place, i);
      if d > 0 { RemovalIsCompact(cn, idx, st[i].gen, d); }
      CompactWrite(st, place, i, ToContracted(ncn, d), st[i].gen);
      st := st[i := INode(ToContracted(ncn, d), st[i].gen)];
      if d > 0 {
        if st[i].main.T? {
          ghost var st1 := st;
          StepStays(hash, old(st), place, st, place, r, i, parent);
          ParentSlot(hash, old(st), place, r, i, parent, e.key);
          CleanParent(parent, i, e.key, d - 1, r);
          MovesTrans(old(st), place, st1, place, st, place, r);
        }
      }
    }

    /** iremove from an L-node. */
    method RemoveFromList(i: nat, k: int, ghost d: nat, ghost r: nat) returns (v: Option<int>)
      requires Sound() && r in st && Here(hash, st, place, r, i, d, k, st[r].gen) && st[i].main.L?
      modifies this`st
      ensures Sound() && Moves(old(st), place, st, place, r) && Dropped(hash, old(st), st, r, k)
      ensures v == Find(hash, old(st), r, 0, k)
    {
      var es := st[i].main.entries;
      ListWrites(hash, st, place, r, i, Entry(k, 0), ListWithout(es, k));
      assert CompactAt(st, place, i);
      ListShrinksByOne(es, k);
      CompactWrite(st, place, i, ListWithout(es, k), st[i].gen);
      st := st[i := INode(ListWithout(es, k), st[i].gen)];
      DroppedFromList(hash, old(st), place, st, place, r, i, k);
      v := ListFind(es, k);
    }

    /** iremove where the branch is an I-node. */
    method RemoveBelow(i: nat, c: nat, k: int, d: nat, parent: nat, startGen: nat, ghost r: nat) returns (v: Option<int>, ok: bool)
      requires Sound() && Here(hash, st, place, r, i, d, k, startGen) && Above(st, place, r, i, parent, startGen)
      requires d < Depth && Get(st[i].main, Chunk(hash, k, d)) == Some(I(c))
      modifies this`st, this`next, this`place
      ensures Sound() && Moves(old(st), old(place), st, place, r)
      ensures ok ==> v == Find(hash, old(st), r, 0, k) && Dropped(hash, old(st), st, r, k)
      ensures !ok ==> Kept(hash, old(st), st, r) && PathLen(hash, st, r, 0, k) < PathLen(hash, old(st), r, 0, k)
      decreases Left(d), Stale(hash, st, i, d, k, startGen), 0
    {
      ChildHere(hash, st, place, r, i, d, k, startGen, c);
      if st[c].gen == startGen {
        v, ok := Iremove(c, k, d + 1, i, startGen, r);
      } else {
        Renew(i, d, startGen, r, k);
        ghost var st1, place1 := st, place;
        v, ok := Iremove(i, k, d, parent, startGen, r);
        MovesTrans(old(st), old(place), st1, place1, st, place, r);
      }
    }

    /** iremove at I-node i. */
    method Iremove(i: nat, k: int, d: nat, parent: nat, startGen: nat, ghost r: nat) returns (v: Option<int>, ok: bool)
      requires Sound() && Here(hash, st, place, r, i, d, k, startGen) && Above(st, place, r, i, parent, startGen)
      modifies this`st, this`next, this`place
      ensures Sound() && Moves(old(st), old(place), st, place, r)
      ensures ok ==> v == Find(hash, old(st), r, 0, k) && Dropped(hash, old(st), st, r, k)
      ensures !ok ==> Kept(hash, old(st), st, r) && PathLen(hash, st, r, 0, k) < PathLen(hash, old(st), r, 0, k)
      decreases Left(d), Stale(hash, st, i, d, k, startGen), 1
    {
      FindPasses(hash, st, place, r, i, k);
      assert MainOk(hash, place, st[i].main, place[i]);
      match st[i].main {
        case C(bmp, branches, _) =>
          var idx := Chunk(hash, k, d);
          GetPresent(st[i].main, idx);
          FindUnfolds(hash, st, i, d, k);
          if !bmp[idx] {
            return None, true;
          }
          match branches[Rank(bmp, idx)] {
            case I(c) =>
              v, ok := RemoveBelow(i, c, k, d, parent, startGen, r);
            case S(sn) =>
              if sn.key != k {
                return None, true;
              }
              RemoveEntry(i, sn, d, parent, r);
              v, ok := Some(sn.value), true;
          }
        case T(_) =>
          ParentSlot(hash, st, place, r, i, parent, k);
          Clean(parent, d - 1, r, k);
          v, ok := None, false;
        case L(_) =>
          v := RemoveFromList(i, k, d, r);
          ok := true;
      }
    }

    /** In every reachable state: sound nodes, each trie holds its map, and no trie can write what another reaches. */
    ghost predicate Valid() reads this {
      Sound() && GensBelow(st, nextGen) && AllOk(hash, st, place, tries, specs)
    }

    /** New */
    constructor (h: Hash)
      ensures Valid() && hash == h && specs == [Trie(map[], false)]
    {
      hash := h;
      st := map[0 := INode(EmptyMain(0), 0)];
      place := map[0 := []];
      next, nextGen := 1, 1;
      tries := [Handle(0, false)];
      specs := [Trie(map[], false)];
      EmptyShows(h, map[0 := INode(EmptyMain(0), 0)], map[0 := []], 0, 0, 0);
    }

    method DoInsert(r: nat, e: Entry)
      requires Sound() && r in st && place[r] == []
      modifies this`st, this`next, this`place
      ensures Sound() && Moves(old(st), old(place), st, place, r) && Put(hash, old(st), st, r, e)
      decreases PathLen(hash, st, r, 0, e.key)
    {
      var ok := Iinsert(r, e, 0, r, st[r].gen, r);
      if !ok {
        ghost var st1, place1 := st, place;
        DoInsert(r, e);
        MovesTrans(old(st), old(place), st1, place1, st, place, r);
      }
    }

    method DoLookup(r: nat, k: int) returns (v: Option<int>)
      requires Sound() && r in st && place[r] == []
      modifies this`st, this`next, this`place
      ensures Sound() && Moves(old(st), old(place), st, place, r) && Kept(hash, old(st), st, r)
      ensures v == Find(hash, old(st), r, 0, k)
      decreases PathLen(hash, st, r, 0, k)
    {
      var ok;
      v, ok := Ilookup(r, k, 0, r, st[r].gen, r);
      if !ok {
        ghost var st1, place1 := st, place;
        v := DoLookup(r, k);
        MovesTrans(old(st), old(place), st1, place1, st, place, r);
      }
    }

    method DoRemove(r: nat, k: int) returns (v: Option<int>)
      requires Sound() && r in st && place[r] == []
      modifies this`st, this`next, this`place
      ensures Sound() && Moves(old(st), old(place), st, place, r) && Dropped(hash, old(st), st, r, k)
      ensures v == Find(hash, old(st), r, 0, k)
      decreases PathLen(hash, st, r, 0, k)
    {
      var ok;
      v, ok := Iremove(r, k, 0, r, st[r].gen, r);
      if !ok {
        ghost var st1, place1 := st, place;
        v := DoRemove(r, k);
        MovesTrans(old(st), old(place), st1, place1, st, place, r);
      }
    }

    /** Insert: panics on a read-only trie, and is seen by no other trie. */
    method Insert(t: nat, k: int, v: int) returns (ok: bool)
      requires Valid() && t < |specs|
      modifies this`st, this`next, this`place, this`specs
      ensures Valid() && ok == !old(specs)[t].readOnly
      ensures specs == if ok then old(specs)[t := Trie(old(specs)[t].contents[k := v], false)] else old(specs)
    {
      assert HandleOk(hash, st, place, tries[t], specs[t]);
      if tries[t].readOnly {
        return false;
      }
      ghost var m := specs[t].contents;
      DoInsert(tries[t].root, Entry(k, v));
      OnlyItself(hash, old(st), old(place), st, place, tries, specs, t, m[k := v]);
      specs := specs[t := Trie(m[k := v], false)];
      ok := true;
    }

    /** Lookup */
    method Lookup(t: nat, k: int) returns (v: Option<int>)
      requires Valid() && t < |specs|
      modifies this`st, this`next, this`place
      ensures Valid() && v == MapGet(specs[t].contents, k)
    {
      assert HandleOk(hash, st, place, tries[t], specs[t]);
      var r := tries[t].root;
      assert Find(hash, st, r, 0, k) == MapGet(specs[t].contents, k);
      if tries[t].readOnly {
        v := IlookupReadOnly(r, k, 0, r);
      } else {
        v := DoLookup(r, k);
        OnlyItself(hash, old(st), old(place), st, place, tries, specs, t, specs[t].contents);
        assert specs == specs[t := Trie(specs[t].contents, false)];
      }
    }

    /** Remove: None on a read-only trie stands for its panic. */
    method Remove(t: nat, k: int) returns (r: Option<Option<int>>)
      requires Valid() && t < |specs|
      modifies this`st, this`next, this`place, this`specs
      ensures Valid() && r.Some? == !old(specs)[t].readOnly
      ensures r.Some? ==> r.value == MapGet(old(specs)[t].contents, k)
      ensures specs == if r.Some? then old(specs)[t := Trie(old(specs)[t].contents - {k}, false)] else old(specs)
    {
      assert HandleOk(hash, st, place, tries[t], specs[t]);
      if tries[t].readOnly {
        return None;
      }
      ghost var m := specs[t].contents;
      assert Find(hash, st, tries[t].root, 0, k) == MapGet(m, k);
      var v := DoRemove(tries[t].root, k);
      OnlyItself(hash, old(st), old(place), st, place, tries, specs, t, m - {k});
      specs := specs[t := Trie(m - {k}, false)];
      r := Some(v);
    }

    /** Trie t goes over to a copy of its root in a new generation. */
    method Reroot(t: nat)
      requires Valid() && t < |specs|
      modifies this
      ensures Valid() && |tries| == |old(tries)| && specs == old(specs)[t := Trie(old(specs)[t].contents, false)]
    {
      assert HandleOk(hash, st, place, tries[t], specs[t]);
      CopyKeeps(hash, st, place, tries, specs, t, next, nextGen);
      CompactNew(st, place, next, st[tries[t].root].main, nextGen, []);
      var n := Alloc(st[tries[t].root].main, nextGen, []);
      nextGen := nextGen + 1;
      specs := specs[t := Trie(specs[t].contents, false)];
      tries := tries[t := Handle(n, false)];
    }

    /** snapshot: a read-only trie is its own read-only snapshot. */
    method Snapshot(t: nat, readOnly: bool) returns (u: nat)
      requires Valid() && t < |specs| && (specs[t].readOnly ==> readOnly)
      modifies this
      ensures Valid()
      ensures old(specs)[t].readOnly ==> u == t && specs == old(specs)
      ensures !old(specs)[t].readOnly ==> u == |old(specs)| && specs == old(specs) + [Trie(old(specs)[t].contents, readOnly)]
    {
      assert HandleOk(hash, st, place, tries[t], specs[t]);
      if readOnly && tries[t].readOnly {
        return t;
      }
      u := |tries|;
      ShareKeeps(hash, st, place, tries, specs, t);
      var h := Handle(tries[t].root, true);
      ghost var s := Trie(specs[t].contents, true);
      tries := tries[t := h] + [h];
      specs := specs[t := s] + [s];
      Reroot(t);
      if !readOnly {
        Reroot(u);
      }
    }

    /** Clear */
    method Clear(t: nat) returns (ok: bool)
      requires Valid() && t < |specs|
      modifies this
      ensures Valid() && ok == !old(specs)[t].readOnly
      ensures specs == if ok then old(specs)[t := Trie(map[], false)] else old(specs)
    {
      assert HandleOk(hash, st, place, tries[t], specs[t]);
      if tries[t].readOnly {
        return false;
      }
      ClearKeeps(hash, st, place, tries, specs, t, next, nextGen);
      CompactNew(st, place, next, EmptyMain(nextGen), nextGen, []);
      var n := Alloc(EmptyMain(nextGen), nextGen, []);
      nextGen := nextGen + 1;
      specs := specs[t := Trie(map[], false)];
      tries := tries[t := Handle(n, false)];
      ok := true;
    }

    /** traverse: the entries below I-node i, each once. */
    method Traverse(i: nat, ghost r: nat) returns (es: seq<Entry>)
      requires Sound() && r in st && place[r] == [] && i in st && Reached(st, place, r, i)
      ensures Yields(hash, st, i, place[i], es)
      decreases Left(|place[i]|), 1
    {
      var m := st[i].main;
      if !m.C? {
        LeafYields(hash, st, place, i);
        return if m.T? then [m.entry] else m.entries;
      }
      assert MainOk(hash, place, m, place[i]);
      es := [];
      var j := 0;
      while j < |m.branches|
        invariant 0 <= j <= |m.branches| && Lists(hash, st, m, place[i], es, j)
      {
        var more := TraverseBranch(i, j, es, r);
        es := es + more;
        j := j + 1;
      }
      ListsAll(hash, st, place, i, es);
    }

    method TraverseBranch(i: nat, j: nat, ghost es: seq<Entry>, ghost r: nat) returns (more: seq<Entry>)
      requires Sound() && r in st && place[r] == [] && i in st && Reached(st, place, r, i)
      requires st[i].main.C? && j < |st[i].main.branches| && Lists(hash, st, st[i].main, place[i], es, j)
      ensures Lists(hash, st, st[i].main, place[i], es + more, j + 1)
      decreases Left(|place[i]|), 0
    {
      BranchReached(hash, st, place, r, i, j);
      match st[i].main.branches[j] {
        case I(c) =>
          more := Traverse(c, r);
        case S(e) =>
          more := [e];
      }
      ListsNext(hash, st, place, i, es, j, more);
    }

    /** Iterator and Size, read to the end: the entries of a snapshot, each once. */
    method Iterate(t: nat) returns (es: seq<Entry>)
      requires Valid() && t < |specs|
      modifies this
      ensures Valid() && |specs| >= |old(specs)| && specs[..|old(specs)|] == old(specs)
      ensures DistinctKeys(es) && |es| == |old(specs)[t].contents|
      ensures forall k :: ListFind(es, k) == MapGet(old(specs)[t].contents, k)
    {
      var u := Snapshot(t, true);
      var r := tries[u].root;
      assert HandleOk(hash, st, place, tries[u], specs[u]);
      es := Traverse(r, r);
      assert forall k :: ListFind(es, k) == MapGet(specs[u].contents, k) by {
        forall k ensures ListFind(es, k) == MapGet(specs[u].contents, k) {
          assert Find(hash, st, r, 0, k) == MapGet(specs[u].contents, k);
        }
      }
      ListCounts(es, specs[u].contents);
    }

    /** One call, on the trie it names. */
    method Do(op: Op)
      requires Valid() && (op.On() < |specs|)
      modifies this
      ensures Valid() && specs == After(old(specs), op)
    {
      match op {
        case Insert(t, k, v) => var _ := Insert(t, k, v);
        case Lookup(t, k) => var _ := Lookup(t, k);
        case Remove(t, k) => var _ := Remove(t, k);
        case Clear(t) => var _ := Clear(t);
        case Snapshot(t, ro) => var _ := Snapshot(t, ro || tries[t].readOnly);
      }
    }

    /** Any run of calls. */
    method Run(ops: seq<Op>)
      requires Valid() && Callable(specs, ops)
      modifies this
      ensures Valid() && specs == AfterAll(old(specs), ops)
    {
      var todo := ops;
      while todo != []
        invariant Valid() && Callable(specs, todo)
        invariant AfterAll(specs, todo) == AfterAll(old(specs), ops)
        decreases |todo|
      {
        Do(todo[0]);
        todo := todo[1..];
      }
    }
  }

  // -------------------------------------------------------------------- runs

  /** A call on the t-th trie. */
  datatype Op =
    | Insert(t: nat, k: int, v: int) | Lookup(t: nat, k: int) | Remove(t: nat, k: int) | Clear(t: nat)
    | Snapshot(t: nat, readOnly: bool)
  {
    function On(): (u: nat) { this.t }
  }

  /** What a call does to the tries, as maps that share nothing. */
  ghost function After(ts: seq<Trie>, op: Op): (r: seq<Trie>)
    requires op.On() < |ts|
  {
    var t := op.On();
    var m := ts[t].contents;
    if op.Lookup? then ts
    else if op.Snapshot? then (if ts[t].readOnly then ts else ts + [Trie(m, op.readOnly)])
    else if ts[t].readOnly then ts
    else ts[t := Trie(if op.Insert? then m[op.k := op.v] else if op.Remove? then m - {op.k} else map[], false)]
  }

  /** Each call names a trie that is there by then. */
  ghost predicate Callable(ts: seq<Trie>, ops: seq<Op>)
    decreases |ops|
  {
    ops == [] || (ops[0].On() < |ts| && Callable(After(ts, ops[0]), ops[1..]))
  }

  /** What a run of calls does. */
  ghost function AfterAll(ts: seq<Trie>, ops: seq<Op>): (r: seq<Trie>)
    requires Callable(ts, ops)
    decreases |ops|
  {
    if ops == [] then ts
    else AfterAll(After(ts, ops[0]), ops[1..])
  }

  /** Calls on other tries leave a trie's contents alone. */
  lemma {:induction false} OthersUntouched(ts: seq<Trie>, ops: seq<Op>, u: nat)
    requires Callable(ts, ops) && u < |ts|
    requires forall j :: 0 <= j < |ops| ==> ops[j].On() != u || ops[j].Lookup? || ops[j].Snapshot?
    ensures u < |AfterAll(ts, ops)| && AfterAll(ts, ops)[u] == ts[u]
    decreases |ops|
  {
    if ops != [] {
      OthersUntouched(After(ts, ops[0]), ops[1..], u);
    }
  }
}
