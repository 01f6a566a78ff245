/**
 * Tries as they lie in a store of I-nodes that several tries share: what a search finds,
 * what one write changes, and that renewal, cleaning and contraction change nothing a
 * search can see.
 */
module CtrieStore {
  import opened Basics
  import opened CtrieNodes

  // ------------------------------------------------------ the trie in the store

  /** The chunk path at which an I-node stands; the root stands at []. */
  type Places = map<nat, seq<nat>>

  /** The key's hash starts with the chunks of `p`. */
  ghost predicate Matches(hash: Hash, k: int, p: seq<nat>) {
    forall j :: 0 <= j < |p| ==> p[j] == Chunk(hash, k, j)
  }

  /** The place q is the slot `i` of the place p. */
  ghost predicate SlotOf(q: seq<nat>, p: seq<nat>, i: nat) {
    |q| == |p| + 1 && q[..|p|] == p && q[|p|] == i
  }

  lemma {:induction false} MatchesChild(hash: Hash, k: int, q: seq<nat>, p: seq<nat>, i: nat)
    requires SlotOf(q, p, i)
    ensures Matches(hash, k, q) <==> Matches(hash, k, p) && i == Chunk(hash, k, |p|)
  {
    assert forall j :: 0 <= j < |p| ==> p[j] == q[j];
  }

  ghost predicate BranchOk(hash: Hash, place: Places, b: Option<Branch>, p: seq<nat>, i: nat) {
    match b
    case None => true
    case Some(I(c)) => c in place && SlotOf(place[c], p, i)
    case Some(S(e)) => Matches(hash, e.key, p) && Chunk(hash, e.key, |p|) == i
  }

  /** What a main node keeps at place p: its bitmap fits, and all it holds belongs there. */
  ghost predicate MainOk(hash: Hash, place: Places, m: Main, p: seq<nat>) {
    match m
    case C(_, _, _) =>
      && |p| < Depth && WellFormed(m)
      && (forall i: nat :: i < 32 ==> BranchOk(hash, place, Get(m, i), p, i))
    case T(e) => 0 < |p| <= Depth && Matches(hash, e.key, p)
    case L(es) => |p| == Depth && DistinctKeys(es) && (forall j :: 0 <= j < |es| ==> Matches(hash, es[j].key, p))
  }

  ghost predicate Inv(hash: Hash, st: Store, place: Places) {
    && place.Keys == st.Keys
    && (forall x :: x in st ==> MainOk(hash, place, st[x].main, place[x]))
  }

  ghost function Left(d: nat): (n: nat) { if d <= Depth then Depth + 1 - d else 0 }

  ghost function FindEntry(e: Entry, k: int): (v: Option<int>) { if e.key == k then Some(e.value) else None }

  /** The value of a key in the subtrie of an I-node `d` levels down. */
  ghost function Find(hash: Hash, st: Store, id: nat, d: nat, k: int): (v: Option<int>)
    decreases Left(d), 0
  {
    if id !in st || d > Depth then None else FindMain(hash, st, st[id].main, d, k)
  }

  ghost function FindBranch(hash: Hash, st: Store, b: Option<Branch>, d: nat, k: int): (v: Option<int>)
    decreases Left(d), 1
  {
    match b
    case None => None
    case Some(I(c)) => Find(hash, st, c, d, k)
    case Some(S(e)) => FindEntry(e, k)
  }

  ghost function FindMain(hash: Hash, st: Store, m: Main, d: nat, k: int): (v: Option<int>)
    decreases if d <= Depth then Depth - d else 0, 2
  {
    match m
    case C(_, _, _) => if d >= Depth then None else FindBranch(hash, st, Get(m, Chunk(hash, k, d)), d + 1, k)
    case T(e) => FindEntry(e, k)
    case L(es) => ListFind(es, k)
  }

  /** How many I-nodes a search for `k` passes below an I-node `d` levels down. */
  ghost function PathLen(hash: Hash, st: Store, id: nat, d: nat, k: int): (n: nat)
    decreases Left(d), 0
  {
    if id !in st || d > Depth then 0 else MainLen(hash, st, st[id].main, d, k)
  }

  ghost function MainLen(hash: Hash, st: Store, m: Main, d: nat, k: int): (n: nat)
    decreases if d <= Depth then Depth - d else 0, 2
  {
    if d >= Depth then 0
    else match Get(m, Chunk(hash, k, d))
      case Some(I(c)) => 1 + PathLen(hash, st, c, d + 1, k)
      case _ => 0
  }

  /** The I-node at place q of the trie with root r. */
  ghost function At(st: Store, r: nat, q: seq<nat>): (x: Option<nat>)
    decreases |q|
  {
    if q == [] then Some(r)
    else
      match At(st, r, q[..|q| - 1])
      case None => None
      case Some(y) =>
        if y in st && q[|q| - 1] < 32 then
          match Get(st[y].main, q[|q| - 1])
          case Some(I(c)) => Some(c)
          case _ => None
        else None
  }

  ghost predicate Reached(st: Store, place: Places, r: nat, x: nat) {
    x in place && At(st, r, place[x]) == Some(x)
  }

  lemma {:induction false} AtPlace(hash: Hash, st: Store, place: Places, r: nat, q: seq<nat>)
    requires Inv(hash, st, place) && r in st && place[r] == []
    ensures At(st, r, q).Some? ==> At(st, r, q).value in st && place[At(st, r, q).value] == q
    decreases |q|
  {
    if q != [] {
      AtPlace(hash, st, place, r, q[..|q| - 1]);
      if At(st, r, q).Some? {
        var y := At(st, r, q[..|q| - 1]).value;
        assert MainOk(hash, place, st[y].main, place[y]);
        assert BranchOk(hash, place, Get(st[y].main, q[|q| - 1]), place[y], q[|q| - 1]);
        assert q == q[..|q| - 1] + [q[|q| - 1]];
      }
    }
  }

  /** A child of a reached I-node is reached. */
  lemma {:induction false} ChildReached(hash: Hash, st: Store, place: Places, r: nat, y: nat, i: nat)
    requires Inv(hash, st, place) && y in st && Reached(st, place, r, y)
    requires i < 32 && Get(st[y].main, i).Some? && Get(st[y].main, i).value.I?
    ensures Reached(st, place, r, Get(st[y].main, i).value.id)
    ensures Get(st[y].main, i).value.id in st && |place[Get(st[y].main, i).value.id]| == |place[y]| + 1 <= Depth
    ensures SlotOf(place[Get(st[y].main, i).value.id], place[y], i)
  {
    var c := Get(st[y].main, i).value.id;
    assert MainOk(hash, place, st[y].main, place[y]);
    assert BranchOk(hash, place, Get(st[y].main, i), place[y], i);
    var q := place[c];
    assert q[..|q| - 1] == place[y];
  }

  /** A reached I-node other than the root is the child of the I-node one place up. */
  lemma {:induction false} ReachedParent(hash: Hash, st: Store, place: Places, r: nat, x: nat) returns (y: nat)
    requires Inv(hash, st, place) && r in st && place[r] == [] && x in st && Reached(st, place, r, x) && place[x] != []
    ensures y in st && Reached(st, place, r, y) && place[y] == place[x][..|place[x]| - 1]
    ensures st[y].main.C? && |place[y]| < Depth
    ensures place[x][|place[x]| - 1] < 32 && Get(st[y].main, place[x][|place[x]| - 1]) == Some(I(x))
  {
    var q := place[x];
    AtPlace(hash, st, place, r, q[..|q| - 1]);
    y := At(st, r, q[..|q| - 1]).value;
    assert MainOk(hash, place, st[y].main, place[y]);
  }

  lemma {:induction false} FindStep(hash: Hash, st: Store, y: nat, d: nat, k: int, x: nat)
    requires y in st && d < Depth && st[y].main.C? && Get(st[y].main, Chunk(hash, k, d)) == Some(I(x))
    ensures Find(hash, st, y, d, k) == Find(hash, st, x, d + 1, k)
    ensures PathLen(hash, st, y, d, k) == 1 + PathLen(hash, st, x, d + 1, k)
  {
    assert FindBranch(hash, st, Some(I(x)), d + 1, k) == Find(hash, st, x, d + 1, k);
  }

  /** A search that ends in a main node depends on nothing else. */
  lemma {:induction false} FindEnds(hash: Hash, st: Store, st': Store, y: nat, d: nat, k: int)
    requires y in st && y in st' && st[y].main == st'[y].main && d <= Depth
    requires st[y].main.C? ==> d < Depth
    requires match Get(st[y].main, Chunk(hash, k, d)) case Some(I(_)) => false case _ => true
    ensures Find(hash, st, y, d, k) == Find(hash, st', y, d, k)
    ensures PathLen(hash, st, y, d, k) == PathLen(hash, st', y, d, k)
  {
    var b := Get(st[y].main, Chunk(hash, k, d));
    assert FindBranch(hash, st, b, d + 1, k) == FindBranch(hash, st', b, d + 1, k);
  }

  /** A search from the root passes through every I-node whose place the key matches. */
  lemma {:induction false} FindPasses(hash: Hash, st: Store, place: Places, r: nat, x: nat, k: int)
    requires Inv(hash, st, place) && r in st && place[r] == [] && x in st && Reached(st, place, r, x)
    requires Matches(hash, k, place[x])
    ensures Find(hash, st, r, 0, k) == Find(hash, st, x, |place[x]|, k)
    ensures PathLen(hash, st, r, 0, k) == |place[x]| + PathLen(hash, st, x, |place[x]|, k)
    decreases |place[x]|
  {
    if place[x] != [] {
      var y := ReachedParent(hash, st, place, r, x);
      assert place[x][|place[y]|] == Chunk(hash, k, |place[y]|);
      FindPasses(hash, st, place, r, y, k) by {
        assert forall j :: 0 <= j < |place[y]| ==> place[y][j] == place[x][j];
      }
      FindStep(hash, st, y, |place[y]|, k, x);
    }
  }

  /** A search below I-node y sees no change that is above y, off the key's path, or not reached. */
  lemma {:induction false} FindFramed(hash: Hash, st: Store, place: Places, st': Store, r: nat, y: nat, k: int)
    requires Inv(hash, st, place) && y in st && Reached(st, place, r, y) && Matches(hash, k, place[y])
    requires forall z :: z in st ==> z in st'
    requires forall z :: z in st && st'[z].main != st[z].main ==>
      |place[z]| < |place[y]| || !Matches(hash, k, place[z]) || !Reached(st, place, r, z)
    ensures Find(hash, st', y, |place[y]|, k) == Find(hash, st, y, |place[y]|, k)
    ensures PathLen(hash, st', y, |place[y]|, k) == PathLen(hash, st, y, |place[y]|, k)
    decreases Left(|place[y]|)
  {
    assert MainOk(hash, place, st[y].main, place[y]);
    assert st'[y].main == st[y].main;
    var d, b := |place[y]|, Get(st[y].main, Chunk(hash, k, |place[y]|));
    if b.Some? && b.value.I? {
      var c := b.value.id;
      ChildReached(hash, st, place, r, y, Chunk(hash, k, d));
      MatchesChild(hash, k, place[c], place[y], Chunk(hash, k, d));
      FindFramed(hash, st, place, st', r, c, k);
      FindStep(hash, st, y, d, k, c);
      FindStep(hash, st', y, d, k, c);
    } else {
      FindEnds(hash, st, st', y, d, k);
    }
  }

  // --------------------------------------------------------------- one write

  /** st' is st with I-node x rewritten and I-nodes added, all in a trie with root r. */
  ghost predicate Step(hash: Hash, st: Store, place: Places, st': Store, place': Places, r: nat, x: nat) {
    && Inv(hash, st, place) && Inv(hash, st', place')
    && r in st && place[r] == [] && x in st && Reached(st, place, r, x)
    && Extends(st, place, st', place')
    && (forall z :: z in st && z != x ==> st'[z] == st[z])
    && (forall f :: f in st' && (f !in st || f == x) ==> KidsReached(st, place, st'[f].main, r))
    && (forall f :: f in st' && f !in st ==> st'[f].gen == st[r].gen)
  }

  /** Nothing is forgotten, moved or given another generation. */
  ghost predicate Extends(st: Store, place: Places, st': Store, place': Places) {
    && (forall z :: z in st ==> z in st' && st'[z].gen == st[z].gen)
    && (forall z :: z in place ==> z in place' && place'[z] == place[z])
  }

  /** The old I-nodes right below a main node were reached from r. */
  ghost predicate KidsReached(st: Store, place: Places, m: Main, r: nat) {
    forall i: nat :: i < 32 ==> (match Get(m, i) case Some(I(c)) => c in st ==> Reached(st, place, r, c) case _ => true)
  }

  /** What a run of writes on the trie with root r may do to the store. */
  ghost predicate Moves(st: Store, place: Places, st': Store, place': Places, r: nat) {
    && r in st
    && Extends(st, place, st', place')
    && (forall z :: z in st && st'[z] != st[z] ==> st[z].gen == st[r].gen && Reached(st, place, r, z))
    && (forall z :: z in st && Reached(st', place', r, z) ==> Reached(st, place, r, z))
    && (forall z :: z in st' && z !in st ==> st'[z].gen == st[r].gen)
  }

  lemma {:induction false} MovesTrans(st: Store, place: Places, st1: Store, place1: Places, st2: Store, place2: Places, r: nat)
    requires Moves(st, place, st1, place1, r) && Moves(st1, place1, st2, place2, r)
    requires place.Keys == st.Keys
    ensures Moves(st, place, st2, place2, r)
  {
    forall z | z in st && st2[z] != st[z] ensures st[z].gen == st[r].gen && Reached(st, place, r, z) {
      if st1[z] != st[z] {} else {}
    }
  }

  /** What r reaches after a step is new or was reached before. */
  lemma {:induction false} StepReach(hash: Hash, st: Store, place: Places, st': Store, place': Places, r: nat, x: nat, z: nat)
    requires Step(hash, st, place, st', place', r, x) && z in st && Reached(st', place', r, z)
    ensures Reached(st, place, r, z)
    decreases |place[z]|
  {
    if place[z] != [] {
      var y := ReachedParent(hash, st', place', r, z);
      var i := place[z][|place[z]| - 1];
      assert Get(st'[y].main, i) == Some(I(z));
      if y !in st || y == x {
        assert KidsReached(st, place, st'[y].main, r);
      } else {
        StepReach(hash, st, place, st', place', r, x, y);
        ChildReached(hash, st, place, r, y, i);
      }
    }
  }

  lemma {:induction false} StepMoves(hash: Hash, st: Store, place: Places, st': Store, place': Places, r: nat, x: nat)
    requires Step(hash, st, place, st', place', r, x) && st[x].gen == st[r].gen
    ensures Moves(st, place, st', place', r)
  {
    forall z | z in st && Reached(st', place', r, z) ensures Reached(st, place, r, z) {
      StepReach(hash, st, place, st', place', r, x, z);
    }
  }

  /** The rewritten I-node stays where it was. */
  lemma {:induction false} StepStays(hash: Hash, st: Store, place: Places, st': Store, place': Places, r: nat, x: nat, y: nat)
    requires Step(hash, st, place, st', place', r, x)
    requires y in st && Reached(st, place, r, y) && |place[y]| <= |place[x]|
    ensures Reached(st', place', r, y)
    decreases |place[y]|
  {
    if place[y] != [] {
      var z := ReachedParent(hash, st, place, r, y);
      StepStays(hash, st, place, st', place', r, x, z);
      ChildReached(hash, st', place', r, z, place[y][|place[y]| - 1]);
    }
  }

  /** A step changes a search exactly where the search meets the rewritten I-node. */
  lemma {:induction false} StepFinds(hash: Hash, st: Store, place: Places, st': Store, place': Places, r: nat, x: nat, k: int)
    requires Step(hash, st, place, st', place', r, x)
    ensures Matches(hash, k, place[x]) ==>
      && Find(hash, st, r, 0, k) == Find(hash, st, x, |place[x]|, k)
      && Find(hash, st', r, 0, k) == Find(hash, st', x, |place[x]|, k)
      && PathLen(hash, st, r, 0, k) == |place[x]| + PathLen(hash, st, x, |place[x]|, k)
      && PathLen(hash, st', r, 0, k) == |place[x]| + PathLen(hash, st', x, |place[x]|, k)
    ensures !Matches(hash, k, place[x]) ==> Find(hash, st', r, 0, k) == Find(hash, st, r, 0, k)
  {
    if Matches(hash, k, place[x]) {
      StepStays(hash, st, place, st', place', r, x, x);
      FindPasses(hash, st, place, r, x, k);
      FindPasses(hash, st', place', r, x, k);
    } else {
      FindFramed(hash, st, place, st', r, r, k);
    }
  }

  /** A trie that does not reach what changed keeps its contents and its reach. */
  lemma {:induction false} OthersReach(hash: Hash, st: Store, place: Places, st': Store, place': Places, b: nat, q: seq<nat>)
    requires Inv(hash, st, place) && b in st && place[b] == [] && Extends(st, place, st', place')
    requires forall z :: z in st && st'[z] != st[z] ==> !Reached(st, place, b, z)
    ensures At(st', b, q) == At(st, b, q)
    decreases |q|
  {
    if q != [] {
      OthersReach(hash, st, place, st', place', b, q[..|q| - 1]);
      AtPlace(hash, st, place, b, q[..|q| - 1]);
    }
  }

  lemma {:induction false} OthersFind(hash: Hash, st: Store, place: Places, st': Store, place': Places, b: nat, k: int)
    requires Inv(hash, st, place) && b in st && place[b] == [] && Extends(st, place, st', place')
    requires forall z :: z in st && st'[z] != st[z] ==> !Reached(st, place, b, z)
    ensures Find(hash, st', b, 0, k) == Find(hash, st, b, 0, k)
  {
    FindFramed(hash, st, place, st', b, b, k);
  }

  // ------------------------------------------------------- what a write means

  /** toContracted */
  function ToContracted(m: Main, d: nat): (r: Main) {
    if d > 0 && m.C? && |m.branches| == 1 && m.branches[0].S? then T(m.branches[0].entry) else m
  }

  /** A C-node and its contraction hold the same for the keys that come by. */
  lemma {:induction false} Contracts(hash: Hash, st: Store, place: Places, m: Main, p: seq<nat>, k: int)
    requires m.C? && MainOk(hash, place, m, p) && Matches(hash, k, p)
    ensures MainOk(hash, place, ToContracted(m, |p|), p)
    ensures FindMain(hash, st, ToContracted(m, |p|), |p|, k) == FindMain(hash, st, m, |p|, k)
    ensures MainLen(hash, st, ToContracted(m, |p|), |p|, k) <= MainLen(hash, st, m, |p|, k)
  {
    var d := |p|;
    if ToContracted(m, d).T? {
      var e := m.branches[0].entry;
      var i := BranchHasBit(m.bmp, 32, 0);
      assert BranchOk(hash, place, Get(m, i), p, i);
      assert Get(m, i) == Some(S(e));
      var j := Chunk(hash, k, d);
      GetPresent(m, j);
      if j < i { RankGrows(m.bmp, j, i); } else { RankGrows(m.bmp, i, j); }
      assert FindMain(hash, st, m, d, k) == FindBranch(hash, st, Get(m, j), d + 1, k);
    }
  }

  /** The branch b' of st' holds what the branch b of st holds: itself, a copied I-node, or a resurrected tomb. */
  ghost predicate Like(st: Store, st': Store, b: Option<Branch>, b': Option<Branch>) {
    || b' == b
    || (&& b.Some? && b.value.I? && b.value.id in st && b'.Some?
        && match b'.value
           case I(c) => c in st' && st'[c].main == st[b.value.id].main
           case S(e) => st[b.value.id].main == T(e))
  }

  ghost function BranchLen(hash: Hash, st: Store, b: Option<Branch>, d: nat, k: int): (n: nat) {
    match b
    case Some(I(c)) => 1 + PathLen(hash, st, c, d, k)
    case _ => 0
  }

  lemma {:induction false} FindUnfolds(hash: Hash, st: Store, x: nat, d: nat, k: int)
    requires x in st && st[x].main.C? && d < Depth
    ensures Find(hash, st, x, d, k) == FindBranch(hash, st, Get(st[x].main, Chunk(hash, k, d)), d + 1, k)
    ensures PathLen(hash, st, x, d, k) == BranchLen(hash, st, Get(st[x].main, Chunk(hash, k, d)), d + 1, k)
  {
  }

  lemma {:induction false} SameMain(hash: Hash, st: Store, y: nat, z: nat, d: nat, k: int)
    requires y in st && z in st && st[y].main == st[z].main
    ensures Find(hash, st, y, d, k) == Find(hash, st, z, d, k)
    ensures PathLen(hash, st, y, d, k) == PathLen(hash, st, z, d, k)
  {
  }

  /** Below the rewritten I-node nothing old changes. */
  lemma {:induction false} LikeFinds(hash: Hash, st: Store, place: Places, st': Store, place': Places, r: nat, x: nat, k: int, b': Option<Branch>)
    requires Step(hash, st, place, st', place', r, x) && st[x].main.C? && Matches(hash, k, place[x])
    requires Like(st, st', Get(st[x].main, Chunk(hash, k, |place[x]|)), b')
    ensures var b := Get(st[x].main, Chunk(hash, k, |place[x]|));
      && FindBranch(hash, st', b', |place[x]| + 1, k) == FindBranch(hash, st, b, |place[x]| + 1, k)
      && BranchLen(hash, st', b', |place[x]| + 1, k) <= BranchLen(hash, st, b, |place[x]| + 1, k)
  {
    var i, d := Chunk(hash, k, |place[x]|), |place[x]|;
    var b := Get(st[x].main, i);
    if b.Some? && b.value.I? {
      var c := b.value.id;
      ChildReached(hash, st, place, r, x, i);
      MatchesChild(hash, k, place[c], place[x], i);
      FindFramed(hash, st, place, st', r, c, k);
      if b'.value.I? {
        SameMain(hash, st', c, b'.value.id, d + 1, k);
      }
    }
  }

  /** Every slot but `idx` holds what it held. */
  ghost predicate LikeBut(st: Store, st': Store, m: Main, m': Main, idx: nat) {
    forall j: nat :: j < 32 && j != idx ==> Like(st, st', Get(m, j), Get(m', j))
  }

  /** m' at I-node x, perhaps contracted. */
  ghost predicate Holds(hash: Hash, st': Store, place': Places, x: nat, m': Main, p: seq<nat>) {
    && x in st' && m'.C? && MainOk(hash, place', m', p)
    && (st'[x].main == m' || st'[x].main == ToContracted(m', |p|))
  }

  lemma {:induction false} HoldsFinds(hash: Hash, st': Store, place': Places, x: nat, m': Main, p: seq<nat>, k: int)
    requires Holds(hash, st', place', x, m', p) && Matches(hash, k, p)
    ensures Find(hash, st', x, |p|, k) == FindBranch(hash, st', Get(m', Chunk(hash, k, |p|)), |p| + 1, k)
    ensures PathLen(hash, st', x, |p|, k) <= BranchLen(hash, st', Get(m', Chunk(hash, k, |p|)), |p| + 1, k)
  {
    Contracts(hash, st', place', m', p, k);
    assert FindMain(hash, st', m', |p|, k) == FindBranch(hash, st', Get(m', Chunk(hash, k, |p|)), |p| + 1, k);
  }

  /** A write that keeps all slots but `idx` is seen only by the keys of that slot. */
  lemma {:induction false} WriteFinds(hash: Hash, st: Store, place: Places, st': Store, place': Places, r: nat, x: nat, m': Main, idx: nat, k: int)
    requires Step(hash, st, place, st', place', r, x) && st[x].main.C?
    requires Holds(hash, st', place', x, m', place[x]) && LikeBut(st, st', st[x].main, m', idx)
    ensures var d := |place[x]|;
      if Matches(hash, k, place[x]) && Chunk(hash, k, d) == idx then
        && Find(hash, st, r, 0, k) == FindBranch(hash, st, Get(st[x].main, Chunk(hash, k, d)), d + 1, k)
        && Find(hash, st', r, 0, k) == FindBranch(hash, st', Get(m', Chunk(hash, k, d)), d + 1, k)
        && PathLen(hash, st, r, 0, k) == d + BranchLen(hash, st, Get(st[x].main, Chunk(hash, k, d)), d + 1, k)
        && PathLen(hash, st', r, 0, k) <= d + BranchLen(hash, st', Get(m', Chunk(hash, k, d)), d + 1, k)
      else
        Find(hash, st', r, 0, k) == Find(hash, st, r, 0, k)
  {
    StepFinds(hash, st, place, st', place', r, x, k);
    assert MainOk(hash, place, st[x].main, place[x]);
    var d := |place[x]|;
    if Matches(hash, k, place[x]) {
      FindUnfolds(hash, st, x, d, k);
      HoldsFinds(hash, st', place', x, m', place[x], k);
      if Chunk(hash, k, d) != idx {
        LikeFinds(hash, st, place, st', place', r, x, k, Get(m', Chunk(hash, k, d)));
      }
    }
  }

  /** Searches for all keys in the trie with root r are as before. */
  ghost predicate Kept(hash: Hash, st: Store, st': Store, r: nat) {
    forall k :: Find(hash, st', r, 0, k) == Find(hash, st, r, 0, k)
  }

  /** Exactly the entry e has been put. */
  ghost predicate Put(hash: Hash, st: Store, st': Store, r: nat, e: Entry) {
    forall k :: Find(hash, st', r, 0, k) == if k == e.key then Some(e.value) else Find(hash, st, r, 0, k)
  }

  /** Exactly the key `gone` has been removed. */
  ghost predicate Dropped(hash: Hash, st: Store, st': Store, r: nat, gone: int) {
    forall k :: Find(hash, st', r, 0, k) == if k == gone then None else Find(hash, st, r, 0, k)
  }

  lemma {:induction false} KeptIfLike(hash: Hash, st: Store, place: Places, st': Store, place': Places, r: nat, x: nat, m': Main)
    requires Step(hash, st, place, st', place', r, x) && st[x].main.C?
    requires Holds(hash, st', place', x, m', place[x]) && LikeBut(st, st', st[x].main, m', 32)
    ensures Kept(hash, st, st', r)
  {
    forall k ensures Find(hash, st', r, 0, k) == Find(hash, st, r, 0, k) {
      WriteFinds(hash, st, place, st', place', r, x, m', 32, k);
    }
  }

  /** The path of a matching key does not grow. */
  lemma {:induction false} LenIfLike(hash: Hash, st: Store, place: Places, st': Store, place': Places, r: nat, x: nat, m': Main, k: int)
    requires Step(hash, st, place, st', place', r, x) && st[x].main.C? && Matches(hash, k, place[x])
    requires Holds(hash, st', place', x, m', place[x]) && LikeBut(st, st', st[x].main, m', 32)
    ensures PathLen(hash, st', r, 0, k) <= PathLen(hash, st, r, 0, k)
    ensures var i := Chunk(hash, k, |place[x]|);
      (Get(st[x].main, i).Some? && Get(st[x].main, i).value.I? && Get(m', i).Some? && Get(m', i).value.S?) ==>
        PathLen(hash, st', r, 0, k) < PathLen(hash, st, r, 0, k)
  {
    var i := Chunk(hash, k, |place[x]|);
    assert LikeBut(st, st', st[x].main, m', i);
    WriteFinds(hash, st, place, st', place', r, x, m', i, k);
    LikeFinds(hash, st, place, st', place', r, x, k, Get(m', i));
  }

  /** Slot `idx` now holds the entry e, and held at most an entry of that key. */
  lemma {:induction false} PutIfSlot(hash: Hash, st: Store, place: Places, st': Store, place': Places, r: nat, x: nat, m': Main, idx: nat, e: Entry)
    requires Step(hash, st, place, st', place', r, x) && st[x].main.C?
    requires Holds(hash, st', place', x, m', place[x]) && LikeBut(st, st', st[x].main, m', idx)
    requires Matches(hash, e.key, place[x]) && idx == Chunk(hash, e.key, |place[x]|)
    requires Get(m', idx) == Some(S(e))
    requires match Get(st[x].main, idx) case None => true case Some(S(e0)) => e0.key == e.key case Some(I(_)) => false
    ensures Put(hash, st, st', r, e)
  {
    forall k ensures Find(hash, st', r, 0, k) == if k == e.key then Some(e.value) else Find(hash, st, r, 0, k) {
      WriteFinds(hash, st, place, st', place', r, x, m', idx, k);
    }
  }

  /** Slot `idx` held the entry e0 and now holds an I-node with e0 and e. */
  lemma {:induction false} PutIfPair(hash: Hash, st: Store, place: Places, st': Store, place': Places, r: nat, x: nat, m': Main, idx: nat, e0: Entry, e: Entry, c: nat)
    requires Step(hash, st, place, st', place', r, x) && st[x].main.C?
    requires Holds(hash, st', place', x, m', place[x]) && LikeBut(st, st', st[x].main, m', idx)
    requires Matches(hash, e.key, place[x]) && idx == Chunk(hash, e.key, |place[x]|)
    requires Get(m', idx) == Some(I(c)) && Get(st[x].main, idx) == Some(S(e0)) && e0.key != e.key
    requires IsPair(hash, st', c, |place[x]| + 1, e0, e)
    ensures Put(hash, st, st', r, e)
  {
    forall k ensures Find(hash, st', r, 0, k) == if k == e.key then Some(e.value) else Find(hash, st, r, 0, k) {
      WriteFinds(hash, st, place, st', place', r, x, m', idx, k);
    }
  }

  /** The I-node c holds exactly two entries. */
  ghost predicate IsPair(hash: Hash, st: Store, c: nat, d: nat, e0: Entry, e: Entry) {
    forall k :: Find(hash, st, c, d, k) == if k == e.key then Some(e.value) else FindEntry(e0, k)
  }

  lemma {:induction false} DroppedIfSlot(hash: Hash, st: Store, place: Places, st': Store, place': Places, r: nat, x: nat, m': Main, idx: nat, e: Entry)
    requires Step(hash, st, place, st', place', r, x) && st[x].main.C?
    requires Holds(hash, st', place', x, m', place[x]) && LikeBut(st, st', st[x].main, m', idx)
    requires Matches(hash, e.key, place[x]) && idx == Chunk(hash, e.key, |place[x]|)
    requires Get(m', idx) == None && Get(st[x].main, idx) == Some(S(e))
    ensures Dropped(hash, st, st', r, e.key)
  {
    forall k ensures Find(hash, st', r, 0, k) == if k == e.key then None else Find(hash, st, r, 0, k) {
      WriteFinds(hash, st, place, st', place', r, x, m', idx, k);
    }
  }

  lemma {:induction false} ListFindIs(hash: Hash, st: Store, place: Places, x: nat, k: int)
    requires Inv(hash, st, place) && x in st && !st[x].main.C?
    ensures st[x].main.L? ==> Find(hash, st, x, |place[x]|, k) == ListFind(st[x].main.entries, k)
    ensures st[x].main.T? ==> Find(hash, st, x, |place[x]|, k) == FindEntry(st[x].main.entry, k)
  {
    assert MainOk(hash, place, st[x].main, place[x]);
  }

  lemma {:induction false} PutInList(hash: Hash, st: Store, place: Places, st': Store, place': Places, r: nat, x: nat, e: Entry)
    requires Step(hash, st, place, st', place', r, x) && st[x].main.L? && Matches(hash, e.key, place[x])
    requires st'[x].main == L(ListInserted(st[x].main.entries, e))
    ensures Put(hash, st, st', r, e)
  {
    assert MainOk(hash, place, st[x].main, place[x]);
    forall k ensures Find(hash, st', r, 0, k) == if k == e.key then Some(e.value) else Find(hash, st, r, 0, k) {
      StepFinds(hash, st, place, st', place', r, x, k);
      ListFindIs(hash, st, place, x, k);
      ListFindIs(hash, st', place', x, k);
      ListInsertedFinds(st[x].main.entries, e, k);
    }
  }

  /** The main node an L-node leaves when a key goes: a tomb for a single entry. */
  function ListWithout(es: seq<Entry>, k: int): (m: Main) {
    var nl := ListRemoved(es, k);
    if |nl| == 1 then T(nl[0]) else L(nl)
  }

  lemma {:induction false} DroppedFromList(hash: Hash, st: Store, place: Places, st': Store, place': Places, r: nat, x: nat, gone: int)
    requires Step(hash, st, place, st', place', r, x) && st[x].main.L? && Matches(hash, gone, place[x])
    requires st'[x].main == ListWithout(st[x].main.entries, gone)
    ensures Dropped(hash, st, st', r, gone)
    ensures Find(hash, st, r, 0, gone) == ListFind(st[x].main.entries, gone)
  {
    assert MainOk(hash, place, st[x].main, place[x]);
    StepFinds(hash, st, place, st', place', r, x, gone);
    ListFindIs(hash, st, place, x, gone);
    forall k ensures Find(hash, st', r, 0, k) == if k == gone then None else Find(hash, st, r, 0, k) {
      StepFinds(hash, st, place, st', place', r, x, k);
      ListFindIs(hash, st, place, x, k);
      ListFindIs(hash, st', place', x, k);
      ListRemovedFinds(st[x].main.entries, gone, k);
      var nl := ListRemoved(st[x].main.entries, gone);
      assert |nl| == 1 ==> ListFind(nl, k) == FindEntry(nl[0], k) by {
        if |nl| == 1 { assert nl[1..] == []; }
      }
    }
  }

  lemma {:induction false} ListMainsOk(hash: Hash, place: Places, es: seq<Entry>, p: seq<nat>, e: Entry)
    requires MainOk(hash, place, L(es), p) && Matches(hash, e.key, p)
    ensures MainOk(hash, place, L(ListInserted(es, e)), p)
    ensures MainOk(hash, place, ListWithout(es, e.key), p)
  {
    ListInsertedFinds(es, e, 0);
    ListRemovedFinds(es, e.key, 0);
    var nl := ListRemoved(es, e.key);
    forall j | 0 <= j < |nl| ensures Matches(hash, nl[j].key, p) {
      assert nl[j] in es;
      var i :| 0 <= i < |es| && es[i] == nl[j];
    }
  }

  // ------------------------------------------------------------- new I-nodes

  ghost predicate Bounded(st: Store, next: nat) { forall x :: x in st ==> x < next }

  /** st' is st with I-nodes added whose old children r reaches. */
  ghost predicate Added(hash: Hash, st: Store, place: Places, st': Store, place': Places, r: nat) {
    && Inv(hash, st, place) && Inv(hash, st', place') && r in st
    && (forall z :: z in st ==> z in st' && st'[z] == st[z])
    && (forall z :: z in place ==> z in place' && place'[z] == place[z])
    && (forall f :: f in st' && f !in st ==> KidsReached(st, place, st'[f].main, r) && st'[f].gen == st[r].gen)
  }

  lemma {:induction false} MainOkExtends(hash: Hash, place: Places, place': Places, m: Main, p: seq<nat>)
    requires MainOk(hash, place, m, p) && (forall z :: z in place ==> z in place' && place'[z] == place[z])
    ensures MainOk(hash, place', m, p)
  {
    if m.C? {
      forall i: nat | i < 32 ensures BranchOk(hash, place', Get(m, i), p, i) {
        assert BranchOk(hash, place, Get(m, i), p, i);
      }
    }
  }

  /** The new I-node `n` with main node m at place p. */
  lemma {:induction false} AddOne(hash: Hash, st: Store, place: Places, st1: Store, place1: Places, r: nat, n: nat, m: Main, gen: nat, p: seq<nat>)
    requires Added(hash, st, place, st1, place1, r) && n !in st1
    requires MainOk(hash, place1, m, p) && KidsReached(st, place, m, r) && gen == st[r].gen
    ensures Added(hash, st, place, st1[n := INode(m, gen)], place1[n := p], r)
  {
    var st', place' := st1[n := INode(m, gen)], place1[n := p];
    forall x | x in st' ensures MainOk(hash, place', st'[x].main, place'[x]) {
      if x == n {
        MainOkExtends(hash, place1, place', m, p);
      } else {
        MainOkExtends(hash, place1, place', st1[x].main, place1[x]);
      }
    }
  }

  /** Adding I-nodes and rewriting x is a step. */
  lemma {:induction false} AddedStep(hash: Hash, st: Store, place: Places, st1: Store, place1: Places, r: nat, x: nat, m: Main)
    requires Added(hash, st, place, st1, place1, r)
    requires r in st && place[r] == [] && x in st && Reached(st, place, r, x)
    requires MainOk(hash, place1, m, place[x]) && KidsReached(st, place, m, r)
    ensures Step(hash, st, place, st1[x := INode(m, st[x].gen)], place1, r, x)
  {
    var st' := st1[x := INode(m, st[x].gen)];
    forall z | z in st' ensures MainOk(hash, place1, st'[z].main, place1[z]) {
      if z != x { assert MainOk(hash, place1, st1[z].main, place1[z]); }
    }
  }

  lemma {:induction false} KidsOfReached(hash: Hash, st: Store, place: Places, r: nat, y: nat)
    requires Inv(hash, st, place) && y in st && Reached(st, place, r, y)
    ensures KidsReached(st, place, st[y].main, r)
  {
    forall i: nat | i < 32
      ensures match Get(st[y].main, i) case Some(I(c)) => c in st ==> Reached(st, place, r, c) case _ => true
    {
      var b := Get(st[y].main, i);
      if b.Some? && b.value.I? { ChildReached(hash, st, place, r, y, i); }
    }
  }

  /** A closed family of I-nodes finds the same in every store that holds it. */
  lemma {:induction false} FindClosed(hash: Hash, st: Store, st': Store, ids: set<nat>, y: nat, d: nat, k: int)
    requires y in ids && Closed(st, ids) && (forall z :: z in ids ==> z in st' && st'[z].main == st[z].main)
    ensures Find(hash, st', y, d, k) == Find(hash, st, y, d, k)
    decreases Left(d)
  {
    if d < Depth && st[y].main.C? {
      FindUnfolds(hash, st, y, d, k);
      FindUnfolds(hash, st', y, d, k);
      var b := Get(st[y].main, Chunk(hash, k, d));
      if b.Some? && b.value.I? {
        assert KidsIn(st[y].main, ids);
        FindClosed(hash, st, st', ids, b.value.id, d + 1, k);
      } else {
        FindEnds(hash, st, st', y, d, k);
      }
    }
  }

  ghost predicate KidsIn(m: Main, ids: set<nat>) {
    forall i: nat :: i < 32 ==> (match Get(m, i) case Some(I(c)) => c in ids case _ => true)
  }

  ghost predicate Closed(st: Store, ids: set<nat>) {
    forall z :: z in ids ==> z in st && KidsIn(st[z].main, ids)
  }

  // -------------------------------------------------------- edits of C-nodes

  /** m' is rn with slot `idx` set to b. */
  ghost predicate Edited(rn: Main, m': Main, idx: nat, b: Option<Branch>) {
    && m'.C? && WellFormed(m')
    && (forall j: nat :: j < 32 ==> Get(m', j) == if j == idx then b else Get(rn, j))
  }

  /** The slot b' of st1 is b, or a new copy of the I-node b of st. */
  ghost predicate Copied(st: Store, st1: Store, b: Option<Branch>, b': Option<Branch>) {
    || b' == b
    || (&& b.Some? && b.value.I? && b.value.id in st
        && b'.Some? && b'.value.I? && b'.value.id !in st && b'.value.id in st1
        && st1[b'.value.id].main == st[b.value.id].main)
  }

  /** rn is the C-node m of I-node x with I-nodes copied. */
  ghost predicate Rebuilt(hash: Hash, st: Store, place: Places, st1: Store, place1: Places, r: nat, x: nat, rn: Main) {
    && x in st && x in place && st[x].main.C? && rn.C? && rn.bmp == st[x].main.bmp
    && MainOk(hash, place1, rn, place[x]) && KidsReached(st, place, rn, r)
    && (forall j: nat :: j < 32 ==> Copied(st, st1, Get(st[x].main, j), Get(rn, j)))
  }

  lemma {:induction false} EditedOk(hash: Hash, place: Places, rn: Main, m': Main, idx: nat, b: Option<Branch>, p: seq<nat>)
    requires rn.C? && MainOk(hash, place, rn, p) && Edited(rn, m', idx, b) && BranchOk(hash, place, b, p, idx)
    ensures MainOk(hash, place, m', p)
  {
    forall i: nat | i < 32 ensures BranchOk(hash, place, Get(m', i), p, i) {
      assert BranchOk(hash, place, Get(rn, i), p, i);
    }
  }

  lemma {:induction false} EditedKids(st: Store, place: Places, r: nat, rn: Main, m': Main, idx: nat, b: Option<Branch>)
    requires KidsReached(st, place, rn, r) && Edited(rn, m', idx, b)
    requires b.Some? && b.value.I? ==> b.value.id !in st
    ensures KidsReached(st, place, m', r)
  {
    forall i: nat | i < 32
      ensures match Get(m', i) case Some(I(c)) => c in st ==> Reached(st, place, r, c) case _ => true
    {
      assert match Get(rn, i) case Some(I(c)) => c in st ==> Reached(st, place, r, c) case _ => true;
    }
  }

  lemma {:induction false} EditedLike(hash: Hash, st: Store, place: Places, st1: Store, place1: Places, r: nat, x: nat, rn: Main,
                   st': Store, m': Main, idx: nat, b: Option<Branch>)
    requires Rebuilt(hash, st, place, st1, place1, r, x, rn) && Edited(rn, m', idx, b)
    requires forall z :: z in st1 && z !in st ==> z in st' && st'[z] == st1[z]
    ensures LikeBut(st, st', st[x].main, m', idx)
  {
    forall j: nat | j < 32 && j != idx ensures Like(st, st', Get(st[x].main, j), Get(m', j)) {
      assert Copied(st, st1, Get(st[x].main, j), Get(rn, j));
    }
  }

  /** The C-node of x rebuilt and edited, perhaps contracted, is a step that keeps every other slot. */
  lemma {:induction false} EditWrites(hash: Hash, st: Store, place: Places, st1: Store, place1: Places, r: nat, x: nat, rn: Main,
                   st2: Store, place2: Places, m': Main, idx: nat, b: Option<Branch>, w: Main)
    requires Rebuilt(hash, st, place, st1, place1, r, x, rn) && Edited(rn, m', idx, b)
    requires Added(hash, st, place, st1, place1, r) && Added(hash, st, place, st2, place2, r)
    requires forall z :: z in st1 ==> z in st2 && st2[z] == st1[z] && z in place1 && z in place2 && place2[z] == place1[z]
    requires BranchOk(hash, place2, b, place[x], idx) && (b.Some? && b.value.I? ==> b.value.id !in st)
    requires r in st && place[r] == [] && Reached(st, place, r, x)
    requires w == m' || w == ToContracted(m', |place[x]|)
    ensures Step(hash, st, place, st2[x := INode(w, st[x].gen)], place2, r, x)
    ensures Holds(hash, st2[x := INode(w, st[x].gen)], place2, x, m', place[x])
    ensures LikeBut(st, st2[x := INode(w, st[x].gen)], st[x].main, m', idx)
  {
    var p := place[x];
    MainOkExtends(hash, place1, place2, rn, p);
    EditedOk(hash, place2, rn, m', idx, b, p);
    EditedKids(st, place, r, rn, m', idx, b);
    ContractedKids(hash, st, place, place2, r, m', p);
    AddedStep(hash, st, place, st2, place2, r, x, w);
    EditedLike(hash, st, place, st1, place1, r, x, rn, st2[x := INode(w, st[x].gen)], m', idx, b);
  }

  lemma {:induction false} ContractedKids(hash: Hash, st: Store, place: Places, place2: Places, r: nat, m': Main, p: seq<nat>)
    requires m'.C? && MainOk(hash, place2, m', p) && KidsReached(st, place, m', r)
    ensures MainOk(hash, place2, ToContracted(m', |p|), p) && KidsReached(st, place, ToContracted(m', |p|), r)
  {
    if ToContracted(m', |p|).T? {
      var i := BranchHasBit(m'.bmp, 32, 0);
      assert BranchOk(hash, place2, Get(m', i), p, i);
    }
  }

  lemma {:induction false} RebuiltSelf(hash: Hash, st: Store, place: Places, r: nat, x: nat)
    requires Inv(hash, st, place) && r in st && x in st && st[x].main.C? && Reached(st, place, r, x)
    ensures Rebuilt(hash, st, place, st, place, r, x, st[x].main) && Added(hash, st, place, st, place, r)
  {
    KidsOfReached(hash, st, place, r, x);
  }

  // ----------------------------------------------------------- small C-nodes

  function Bits(i: nat, j: nat): (bmp: seq<bool>)
    ensures |bmp| == 32 && forall n :: 0 <= n < 32 ==> bmp[n] == (n == i || n == j)
  {
    seq(32, n => n == i || n == j)
  }

  lemma {:induction false} RankOfBits(i: nat, j: nat, n: nat)
    requires i <= j < 32 && n <= 32
    ensures Rank(Bits(i, j), n) == (if i < n then 1 else 0) + (if i < j < n then 1 else 0)
  {
    if n > 0 { RankOfBits(i, j, n - 1); }
  }

  lemma {:induction false} PairGets(i: nat, j: nat, b: Branch, b': Branch, gen: nat, n: nat)
    requires i < j < 32 && n < 32
    ensures WellFormed(C(Bits(i, j), [b, b'], gen))
    ensures Get(C(Bits(i, j), [b, b'], gen), n) == if n == i then Some(b) else if n == j then Some(b') else None
  {
    RankOfBits(i, j, n);
    RankOfBits(i, j, 32);
  }

  lemma {:induction false} SingleGets(i: nat, b: Branch, gen: nat, n: nat)
    requires i < 32 && n < 32
    ensures WellFormed(C(Bits(i, i), [b], gen))
    ensures Get(C(Bits(i, i), [b], gen), n) == if n == i then Some(b) else None
  {
    RankOfBits(i, i, n);
    RankOfBits(i, i, 32);
  }

  /** A main node that holds exactly two entries. */
  ghost predicate PairMain(hash: Hash, st: Store, m: Main, d: nat, x: Entry, y: Entry) {
    forall k :: FindMain(hash, st, m, d, k) == if k == y.key then Some(y.value) else FindEntry(x, k)
  }

  lemma {:induction false} PairOfEntries(hash: Hash, st: Store, place: Places, m: Main, p: seq<nat>, x: Entry, y: Entry, gen: nat)
    requires |p| < Depth && Matches(hash, x.key, p) && Matches(hash, y.key, p)
    requires var i, j := Chunk(hash, x.key, |p|), Chunk(hash, y.key, |p|);
      i != j && m == if i < j then C(Bits(i, j), [S(x), S(y)], gen) else C(Bits(j, i), [S(y), S(x)], gen)
    ensures MainOk(hash, place, m, p) && PairMain(hash, st, m, |p|, x, y) && KidsIn(m, {})
  {
    var i, j := Chunk(hash, x.key, |p|), Chunk(hash, y.key, |p|);
    forall n: nat | n < 32
      ensures WellFormed(m) && Get(m, n) == if n == i then Some(S(x)) else if n == j then Some(S(y)) else None
    {
      if i < j { PairGets(i, j, S(x), S(y), gen, n); } else { PairGets(j, i, S(y), S(x), gen, n); }
    }
    assert Get(m, 0) == if 0 == i then Some(S(x)) else if 0 == j then Some(S(y)) else None;
    forall k ensures FindMain(hash, st, m, |p|, k) == if k == y.key then Some(y.value) else FindEntry(x, k) {
      assert FindMain(hash, st, m, |p|, k) == FindBranch(hash, st, Get(m, Chunk(hash, k, |p|)), |p| + 1, k);
    }
  }

  lemma {:induction false} PairInList(hash: Hash, st: Store, place: Places, p: seq<nat>, x: Entry, y: Entry)
    requires |p| == Depth && Matches(hash, x.key, p) && Matches(hash, y.key, p) && x.key != y.key
    ensures MainOk(hash, place, L([y, x]), p) && PairMain(hash, st, L([y, x]), |p|, x, y)
  {
    assert [y, x][1..] == [x] && [x][1..] == [];
    assert DistinctKeys([x]);
    forall k ensures ListFind([y, x], k) == if k == y.key then Some(y.value) else FindEntry(x, k) {
      assert ListFind([x], k) == FindEntry(x, k);
    }
  }

  /** A C-node with one I-node that holds the two entries. */
  lemma {:induction false} PairBelow(hash: Hash, st: Store, place: Places, p: seq<nat>, x: Entry, y: Entry, gen: nat, c: nat)
    requires |p| < Depth && Matches(hash, x.key, p) && Matches(hash, y.key, p)
    requires Chunk(hash, x.key, |p|) == Chunk(hash, y.key, |p|)
    requires c in place && SlotOf(place[c], p, Chunk(hash, x.key, |p|)) && IsPair(hash, st, c, |p| + 1, x, y)
    ensures var m := C(Bits(Chunk(hash, x.key, |p|), Chunk(hash, x.key, |p|)), [I(c)], gen);
      && MainOk(hash, place, m, p) && KidsIn(m, {c}) && PairMain(hash, st, m, |p|, x, y)
  {
    var i := Chunk(hash, x.key, |p|);
    var m := C(Bits(i, i), [I(c)], gen);
    forall n: nat | n < 32 ensures WellFormed(m) && Get(m, n) == if n == i then Some(I(c)) else None {
      SingleGets(i, I(c), gen, n);
    }
    assert Get(m, 0) == if 0 == i then Some(I(c)) else None;
    forall k ensures FindMain(hash, st, m, |p|, k) == if k == y.key then Some(y.value) else FindEntry(x, k) {
      assert FindMain(hash, st, m, |p|, k) == FindBranch(hash, st, Get(m, Chunk(hash, k, |p|)), |p| + 1, k);
      assert Find(hash, st, c, |p| + 1, k) == if k == y.key then Some(y.value) else FindEntry(x, k);
    }
  }

  lemma {:induction false} NewKids(st: Store, place: Places, r: nat, m: Main, ids: set<nat>)
    requires KidsIn(m, ids) && (forall z :: z in ids ==> z !in st)
    ensures KidsReached(st, place, m, r)
  {
    forall i: nat | i < 32
      ensures match Get(m, i) case Some(I(c)) => c in st ==> Reached(st, place, r, c) case _ => true
    {
      assert match Get(m, i) case Some(I(c)) => c in ids case _ => true;
    }
  }

  lemma {:induction false} KidsInMore(m: Main, ids: set<nat>, ids': set<nat>)
    requires KidsIn(m, ids) && ids <= ids'
    ensures KidsIn(m, ids')
  {
    forall i: nat | i < 32 ensures match Get(m, i) case Some(I(c)) => c in ids' case _ => true {
      assert match Get(m, i) case Some(I(c)) => c in ids case _ => true;
    }
  }

  lemma {:induction false} ClosedAdd(st: Store, ids: set<nat>, c: nat, n: INode)
    requires Closed(st, ids) && c !in st && KidsIn(n.main, ids)
    ensures Closed(st[c := n], ids + {c})
  {
    forall z | z in ids + {c} ensures z in st[c := n] && KidsIn(st[c := n][z].main, ids + {c}) {
      KidsInMore(st[c := n][z].main, ids, ids + {c});
    }
  }

  /** A pair in a main node is a pair in a new I-node with that main node. */
  lemma {:induction false} PairInNode(hash: Hash, st: Store, ids: set<nat>, m: Main, d: nat, x: Entry, y: Entry, c: nat, gen: nat)
    requires PairMain(hash, st, m, d, x, y) && KidsIn(m, ids) && Closed(st, ids) && c !in st && d <= Depth
    ensures IsPair(hash, st[c := INode(m, gen)], c, d, x, y)
  {
    var st' := st[c := INode(m, gen)];
    forall k ensures Find(hash, st', c, d, k) == if k == y.key then Some(y.value) else FindEntry(x, k) {
      assert FindMain(hash, st, m, d, k) == if k == y.key then Some(y.value) else FindEntry(x, k);
      if m.C? && d < Depth {
        FindUnfolds(hash, st', c, d, k);
        var b := Get(m, Chunk(hash, k, d));
        assert match b case Some(I(n)) => n in ids case _ => true;
        if b.Some? && b.value.I? {
          FindClosed(hash, st, st', ids, b.value.id, d + 1, k);
        }
        assert FindBranch(hash, st, b, d + 1, k) == FindBranch(hash, st', b, d + 1, k);
      }
    }
  }

  lemma {:induction false} PairStays(hash: Hash, st: Store, st': Store, ids: set<nat>, c: nat, d: nat, x: Entry, y: Entry)
    requires IsPair(hash, st, c, d, x, y) && c in ids && Closed(st, ids)
    requires forall z :: z in ids ==> z in st' && st'[z].main == st[z].main
    ensures IsPair(hash, st', c, d, x, y)
  {
    forall k ensures Find(hash, st', c, d, k) == if k == y.key then Some(y.value) else FindEntry(x, k) {
      FindClosed(hash, st, st', ids, c, d, k);
      assert Find(hash, st, c, d, k) == if k == y.key then Some(y.value) else FindEntry(x, k);
    }
  }

  /** Giving a new pair its I-node. */
  lemma {:induction false} PairAdded(hash: Hash, st0: Store, place0: Places, r: nat, known: set<nat>, st1: Store, place1: Places,
                  m: Main, p: seq<nat>, x: Entry, y: Entry, c: nat, gen: nat)
    requires Added(hash, st0, place0, st1, place1, r) && c !in st1 && |p| <= Depth && gen == st0[r].gen
    requires MainOk(hash, place1, m, p) && PairMain(hash, st1, m, |p|, x, y)
    requires st0.Keys <= known <= st1.Keys && KidsIn(m, st1.Keys - known) && Closed(st1, st1.Keys - known)
    ensures Added(hash, st0, place0, st1[c := INode(m, gen)], place1[c := p], r)
    ensures Closed(st1[c := INode(m, gen)], st1[c := INode(m, gen)].Keys - known)
    ensures IsPair(hash, st1[c := INode(m, gen)], c, |p|, x, y)
  {
    var ids := st1.Keys - known;
    NewKids(st0, place0, r, m, ids);
    AddOne(hash, st0, place0, st1, place1, r, c, m, gen, p);
    PairInNode(hash, st1, ids, m, |p|, x, y, c, gen);
    ClosedAdd(st1, ids, c, INode(m, gen));
    assert st1[c := INode(m, gen)].Keys - known == ids + {c};
  }

  lemma {:induction false} ChildPlace(hash: Hash, p: seq<nat>, i: nat, k: int)
    ensures SlotOf(p + [i], p, i)
    ensures Matches(hash, k, p + [i]) <==> Matches(hash, k, p) && i == Chunk(hash, k, |p|)
  {
    assert (p + [i])[..|p|] == p;
    MatchesChild(hash, k, p + [i], p, i);
  }

  // ----------------------------------------------------------------- renewal

  /** b' is b, or a new I-node of generation gen with b's main node and place. */
  ghost predicate CopyOf(st: Store, place: Places, st1: Store, place1: Places, b: Branch, b': Branch, gen: nat) {
    if b.S? then b' == b
    else
      && b'.I? && b.id in st && b.id in place && b'.id !in st && b'.id in st1 && b'.id in place1
      && st1[b'.id] == INode(st[b.id].main, gen) && place1[b'.id] == place[b.id]
  }

  lemma {:induction false} SlotOfBranch(hash: Hash, st: Store, place: Places, x: nat, j: nat) returns (i: nat)
    requires Inv(hash, st, place) && x in st && st[x].main.C? && j < |st[x].main.branches|
    ensures i < 32 && Get(st[x].main, i) == Some(st[x].main.branches[j])
  {
    assert MainOk(hash, place, st[x].main, place[x]);
    i := BranchHasBit(st[x].main.bmp, 32, j);
  }

  /** Copying the I-node in branch j of x. */
  lemma {:induction false} CopyAdded(hash: Hash, st0: Store, place0: Places, st1: Store, place1: Places, r: nat, x: nat, j: nat, n: nat, gen: nat)
    requires Added(hash, st0, place0, st1, place1, r) && n !in st1 && gen == st0[r].gen
    requires x in st0 && st0[x].main.C? && r in st0 && place0[r] == [] && Reached(st0, place0, r, x)
    requires j < |st0[x].main.branches| && st0[x].main.branches[j].I?
    ensures var c := st0[x].main.branches[j].id;
      && c in st0 && c in st1 && st1[c] == st0[c] && c in place1
      && Added(hash, st0, place0, st1[n := INode(st1[c].main, gen)], place1[n := place1[c]], r)
      && CopyOf(st0, place0, st1[n := INode(st1[c].main, gen)], place1[n := place1[c]], I(c), I(n), gen)
  {
    var i := SlotOfBranch(hash, st0, place0, x, j);
    var c := st0[x].main.branches[j].id;
    ChildReached(hash, st0, place0, r, x, i);
    KidsOfReached(hash, st0, place0, r, c);
    assert MainOk(hash, place1, st1[c].main, place1[c]);
    AddOne(hash, st0, place0, st1, place1, r, n, st1[c].main, gen, place1[c]);
  }

  /** The branches bs, copied as far as arr goes. */
  ghost predicate Copies(st: Store, place: Places, st1: Store, place1: Places, bs: seq<Branch>, arr: seq<Branch>, gen: nat) {
    && |arr| <= |bs|
    && (forall j :: 0 <= j < |arr| ==> CopyOf(st, place, st1, place1, bs[j], arr[j], gen))
  }

  lemma {:induction false} CopiesMore(st: Store, place: Places, st1: Store, place1: Places, st2: Store, place2: Places,
                   bs: seq<Branch>, arr: seq<Branch>, gen: nat, b: Branch)
    requires Copies(st, place, st1, place1, bs, arr, gen) && |arr| < |bs|
    requires forall z :: z in st1 ==> z in st2 && st2[z] == st1[z]
    requires forall z :: z in place1 ==> z in place2 && place2[z] == place1[z]
    requires CopyOf(st, place, st2, place2, bs[|arr|], b, gen)
    ensures Copies(st, place, st2, place2, bs, arr + [b], gen)
  {
    forall j | 0 <= j < |arr + [b]| ensures CopyOf(st, place, st2, place2, bs[j], (arr + [b])[j], gen) {
      if j < |arr| {
        assert CopyOf(st, place, st1, place1, bs[j], arr[j], gen);
      }
    }
  }

  ghost predicate Renews(st: Store, place: Places, st1: Store, place1: Places, m: Main, rn: Main, gen: nat) {
    && m.C? && rn.C? && rn.bmp == m.bmp && |rn.branches| == |m.branches|
    && Copies(st, place, st1, place1, m.branches, rn.branches, gen)
  }

  lemma {:induction false} RenewedSlot(hash: Hash, st: Store, place: Places, st1: Store, place1: Places, m: Main, rn: Main, gen: nat, i: nat)
    requires Renews(st, place, st1, place1, m, rn, gen) && WellFormed(m) && i < 32
    ensures Copied(st, st1, Get(m, i), Get(rn, i))
    ensures match Get(rn, i)
      case None => Get(m, i) == None
      case Some(S(e)) => Get(m, i) == Some(S(e))
      case Some(I(c)) => c !in st && c in place1 && c in st1 && st1[c].gen == gen &&
                         Get(m, i).Some? && Get(m, i).value.I? && Get(m, i).value.id in place && place1[c] == place[Get(m, i).value.id]
  {
    GetPresent(m, i);
    GetPresent(rn, i);
  }

  lemma {:induction false} RenewedIsRebuilt(hash: Hash, st: Store, place: Places, st1: Store, place1: Places, r: nat, x: nat, rn: Main, gen: nat)
    requires Inv(hash, st, place) && x in st && st[x].main.C?
    requires Renews(st, place, st1, place1, st[x].main, rn, gen)
    ensures Rebuilt(hash, st, place, st1, place1, r, x, rn)
  {
    var m, p := st[x].main, place[x];
    assert MainOk(hash, place, m, p);
    forall i: nat | i < 32
      ensures Copied(st, st1, Get(m, i), Get(rn, i))
      ensures BranchOk(hash, place1, Get(rn, i), p, i)
      ensures match Get(rn, i) case Some(I(c)) => c in st ==> Reached(st, place, r, c) case _ => true
    {
      assert BranchOk(hash, place, Get(m, i), p, i);
      RenewedSlot(hash, st, place, st1, place1, m, rn, gen, i);
    }
  }

  // --------------------------------------------------- where an operation is

  /** I-node i is d levels down the path of key k, in the root's generation g. */
  ghost predicate Here(hash: Hash, st: Store, place: Places, r: nat, i: nat, d: nat, k: int, g: nat) {
    && r in st && r in place && place[r] == [] && i in st && Reached(st, place, r, i)
    && |place[i]| == d && Matches(hash, k, place[i]) && st[i].gen == g == st[r].gen
  }

  /** `parent` is the I-node one place up, in generation g. */
  ghost predicate Above(st: Store, place: Places, r: nat, i: nat, parent: nat, g: nat) {
    i in place && (place[i] != [] ==>
      parent in st && Reached(st, place, r, parent) && place[parent] == place[i][..|place[i]| - 1] && st[parent].gen == g)
  }

  lemma {:induction false} ChildHere(hash: Hash, st: Store, place: Places, r: nat, i: nat, d: nat, k: int, g: nat, c: nat)
    requires Inv(hash, st, place) && Here(hash, st, place, r, i, d, k, g) && Get(st[i].main, Chunk(hash, k, d)) == Some(I(c))
    ensures c in st && d < Depth && (st[c].gen == g ==> Here(hash, st, place, r, c, d + 1, k, g))
    ensures Above(st, place, r, c, i, g)
  {
    ChildReached(hash, st, place, r, i, Chunk(hash, k, d));
    MatchesChild(hash, k, place[c], place[i], Chunk(hash, k, d));
  }

  /** The I-node next on the key's path is a tomb. */
  ghost predicate TombNext(hash: Hash, st: Store, x: nat, d: nat, k: int) {
    x in st && match Get(st[x].main, Chunk(hash, k, d)) case Some(I(c)) => c in st && st[c].main.T? case _ => false
  }

  /** Whether the I-node next on the key's path is of another generation. */
  ghost function Stale(hash: Hash, st: Store, i: nat, d: nat, k: int, g: nat): (n: nat) {
    if i !in st then 0
    else match Get(st[i].main, Chunk(hash, k, d))
      case Some(I(c)) => if c in st && st[c].gen == g then 0 else 1
      case _ => 0
  }

  // ---------------------------------------------------------------- cleaning

  /** resurrect */
  function Resurrect(st: Store, b: Branch): (r: Branch) {
    if b.I? && b.id in st && st[b.id].main.T? then S(st[b.id].main.entry) else b
  }

  /** m' is m with some tombs resurrected. */
  ghost predicate Tidied(st: Store, m: Main, m': Main) {
    && m.C? && m'.C? && m'.bmp == m.bmp && |m'.branches| == |m.branches|
    && (forall j :: 0 <= j < |m.branches| ==> m'.branches[j] == m.branches[j] || m'.branches[j] == Resurrect(st, m.branches[j]))
  }

  lemma {:induction false} TidiedSlot(hash: Hash, st: Store, place: Places, r: nat, x: nat, m': Main, i: nat, st': Store)
    requires Inv(hash, st, place) && x in st && Reached(st, place, r, x) && Tidied(st, st[x].main, m') && i < 32
    ensures BranchOk(hash, place, Get(m', i), place[x], i)
    ensures match Get(m', i) case Some(I(c)) => c in st ==> Reached(st, place, r, c) case _ => true
    ensures Like(st, st', Get(st[x].main, i), Get(m', i))
  {
    var m := st[x].main;
    assert MainOk(hash, place, m, place[x]);
    assert BranchOk(hash, place, Get(m, i), place[x], i);
    GetPresent(m, i);
    GetPresent(m', i);
    var b := Get(m, i);
    if b.Some? && b.value.I? {
      ChildReached(hash, st, place, r, x, i);
      var c := b.value.id;
      assert MainOk(hash, place, st[c].main, place[c]);
      if st[c].main.T? {
        MatchesChild(hash, st[c].main.entry.key, place[c], place[x], i);
      }
    }
  }

  lemma {:induction false} TidyWrites(hash: Hash, st: Store, place: Places, r: nat, x: nat, m': Main)
    requires Inv(hash, st, place) && r in st && place[r] == [] && x in st && Reached(st, place, r, x)
    requires Tidied(st, st[x].main, m')
    ensures var st' := st[x := INode(ToContracted(m', |place[x]|), st[x].gen)];
      && Step(hash, st, place, st', place, r, x)
      && Holds(hash, st', place, x, m', place[x])
      && LikeBut(st, st', st[x].main, m', 32)
  {
    var w := ToContracted(m', |place[x]|);
    var st' := st[x := INode(w, st[x].gen)];
    assert MainOk(hash, place, st[x].main, place[x]);
    forall i: nat | i < 32
      ensures BranchOk(hash, place, Get(m', i), place[x], i)
      ensures match Get(m', i) case Some(I(c)) => c in st ==> Reached(st, place, r, c) case _ => true
      ensures Like(st, st', Get(st[x].main, i), Get(m', i))
    {
      TidiedSlot(hash, st, place, r, x, m', i, st');
    }
    ContractedKids(hash, st, place, place, r, m', place[x]);
    AddedStep(hash, st, place, st, place, r, x, w);
  }

  /** The I-node one place up is the parent. */
  lemma {:induction false} ParentSlot(hash: Hash, st: Store, place: Places, r: nat, x: nat, parent: nat, k: int)
    requires Inv(hash, st, place) && r in st && place[r] == [] && x in st && Reached(st, place, r, x) && place[x] != []
    requires parent in st && Reached(st, place, r, parent) && place[parent] == place[x][..|place[x]| - 1]
    requires Matches(hash, k, place[x])
    ensures st[parent].main.C? && |place[parent]| == |place[x]| - 1 && Matches(hash, k, place[parent])
    ensures Get(st[parent].main, Chunk(hash, k, |place[x]| - 1)) == Some(I(x))
  {
    var y := ReachedParent(hash, st, place, r, x);
    assert forall j :: 0 <= j < |place[parent]| ==> place[parent][j] == place[x][j];
  }

  lemma {:induction false} Cleaned(hash: Hash, st: Store, place: Places, st': Store, r: nat, x: nat, m': Main, k: int)
    requires Step(hash, st, place, st', place, r, x) && Here(hash, st, place, r, x, |place[x]|, k, st[r].gen)
    requires Tidied(st, st[x].main, m') && Holds(hash, st', place, x, m', place[x]) && LikeBut(st, st', st[x].main, m', 32)
    requires forall j :: 0 <= j < |st[x].main.branches| ==> m'.branches[j] == Resurrect(st, st[x].main.branches[j])
    ensures Moves(st, place, st', place, r) && Kept(hash, st, st', r)
    ensures TombNext(hash, st, x, |place[x]|, k) ==> PathLen(hash, st', r, 0, k) < PathLen(hash, st, r, 0, k)
  {
    StepMoves(hash, st, place, st', place, r, x);
    KeptIfLike(hash, st, place, st', place, r, x, m');
    LenIfLike(hash, st, place, st', place, r, x, m', k);
    GetPresent(m', Chunk(hash, k, |place[x]|));
  }

  // -------------------------------------------------- what each gcas achieves

  /** renewed, written */
  lemma {:induction false} RenewWrites(hash: Hash, st: Store, place: Places, st1: Store, place1: Places, r: nat, x: nat, rn: Main, k: int)
    requires Added(hash, st, place, st1, place1, r) && r in st && x in place && Here(hash, st, place, r, x, |place[x]|, k, st[r].gen)
    requires st[x].main.C? && Renews(st, place, st1, place1, st[x].main, rn, st[r].gen)
    ensures var st' := st1[x := INode(rn, st[x].gen)];
      && Step(hash, st, place, st', place1, r, x) && Moves(st, place, st', place1, r) && Kept(hash, st, st', r)
      && PathLen(hash, st', r, 0, k) <= PathLen(hash, st, r, 0, k)
      && Stale(hash, st', x, |place[x]|, k, st[r].gen) == 0
  {
    var st', i := st1[x := INode(rn, st[x].gen)], Chunk(hash, k, |place[x]|);
    assert MainOk(hash, place, st[x].main, place[x]);
    RenewedIsRebuilt(hash, st, place, st1, place1, r, x, rn, st[r].gen);
    assert Edited(rn, rn, 32, None);
    EditWrites(hash, st, place, st1, place1, r, x, rn, st1, place1, rn, 32, None, rn);
    StepMoves(hash, st, place, st', place1, r, x);
    KeptIfLike(hash, st, place, st', place1, r, x, rn);
    LenIfLike(hash, st, place, st', place1, r, x, rn, k);
    RenewedSlot(hash, st, place, st1, place1, st[x].main, rn, st[r].gen, i);
  }

  /** rn.inserted or rn.updated with a new entry, written */
  lemma {:induction false} EntryWrites(hash: Hash, st: Store, place: Places, st1: Store, place1: Places, r: nat, x: nat, rn: Main, e: Entry, m': Main)
    requires Added(hash, st, place, st1, place1, r) && r in st && x in place && Here(hash, st, place, r, x, |place[x]|, e.key, st[r].gen)
    requires Rebuilt(hash, st, place, st1, place1, r, x, rn)
    requires Edited(rn, m', Chunk(hash, e.key, |place[x]|), Some(S(e)))
    requires match Get(st[x].main, Chunk(hash, e.key, |place[x]|)) case None => true case Some(S(e0)) => e0.key == e.key case Some(I(_)) => false
    ensures var st' := st1[x := INode(m', st[x].gen)];
      Inv(hash, st', place1) && Moves(st, place, st', place1, r) && Put(hash, st, st', r, e)
  {
    var st', i := st1[x := INode(m', st[x].gen)], Chunk(hash, e.key, |place[x]|);
    EditWrites(hash, st, place, st1, place1, r, x, rn, st1, place1, m', i, Some(S(e)), m');
    StepMoves(hash, st, place, st', place1, r, x);
    PutIfSlot(hash, st, place, st', place1, r, x, m', i, e);
  }

  /** rn.updated with a new I-node for two entries, written */
  lemma {:induction false} PairWrites(hash: Hash, st: Store, place: Places, st1: Store, place1: Places, st2: Store, place2: Places,
                   r: nat, x: nat, rn: Main, e0: Entry, e: Entry, m': Main, c: nat)
    requires Added(hash, st, place, st1, place1, r) && Added(hash, st, place, st2, place2, r)
    requires forall z :: z in st1 ==> z in st2 && st2[z] == st1[z]
    requires forall z :: z in place1 ==> z in place2 && place2[z] == place1[z]
    requires r in st && x in place && Here(hash, st, place, r, x, |place[x]|, e.key, st[r].gen)
    requires Rebuilt(hash, st, place, st1, place1, r, x, rn)
    requires Edited(rn, m', Chunk(hash, e.key, |place[x]|), Some(I(c)))
    requires c !in st1 && c in st2 && c in place2 && SlotOf(place2[c], place[x], Chunk(hash, e.key, |place[x]|))
    requires Closed(st2, st2.Keys - st1.Keys) && IsPair(hash, st2, c, |place[x]| + 1, e0, e)
    requires Get(st[x].main, Chunk(hash, e.key, |place[x]|)) == Some(S(e0)) && e0.key != e.key
    ensures var st' := st2[x := INode(m', st[x].gen)];
      Inv(hash, st', place2) && Moves(st, place, st', place2, r) && Put(hash, st, st', r, e)
  {
    var st', i := st2[x := INode(m', st[x].gen)], Chunk(hash, e.key, |place[x]|);
    EditWrites(hash, st, place, st1, place1, r, x, rn, st2, place2, m', i, Some(I(c)), m');
    StepMoves(hash, st, place, st', place2, r, x);
    PairStays(hash, st2, st', st2.Keys - st1.Keys, c, |place[x]| + 1, e0, e);
    PutIfPair(hash, st, place, st', place2, r, x, m', i, e0, e, c);
  }

  /** removed, contracted, written */
  lemma {:induction false} RemovalWrites(hash: Hash, st: Store, place: Places, r: nat, x: nat, e: Entry, m': Main)
    requires Inv(hash, st, place) && r in st && x in place && Here(hash, st, place, r, x, |place[x]|, e.key, st[r].gen)
    requires st[x].main.C? && Get(st[x].main, Chunk(hash, e.key, |place[x]|)) == Some(S(e))
    requires Edited(st[x].main, m', Chunk(hash, e.key, |place[x]|), None)
    ensures var st' := st[x := INode(ToContracted(m', |place[x]|), st[x].gen)];
      && Step(hash, st, place, st', place, r, x) && Moves(st, place, st', place, r)
      && Dropped(hash, st, st', r, e.key) && Find(hash, st, r, 0, e.key) == Some(e.value)
  {
    var i, w := Chunk(hash, e.key, |place[x]|), ToContracted(m', |place[x]|);
    var st' := st[x := INode(w, st[x].gen)];
    RebuiltSelf(hash, st, place, r, x);
    EditWrites(hash, st, place, st, place, r, x, st[x].main, st, place, m', i, None, w);
    StepMoves(hash, st, place, st', place, r, x);
    DroppedIfSlot(hash, st, place, st', place, r, x, m', i, e);
    WriteFinds(hash, st, place, st', place, r, x, m', i, e.key);
  }

  /** A list node rewritten. */
  lemma {:induction false} ListWrites(hash: Hash, st: Store, place: Places, r: nat, x: nat, e: Entry, w: Main)
    requires Inv(hash, st, place) && r in st && x in place && Here(hash, st, place, r, x, |place[x]|, e.key, st[r].gen) && st[x].main.L?
    requires w == L(ListInserted(st[x].main.entries, e)) || w == ListWithout(st[x].main.entries, e.key)
    ensures Step(hash, st, place, st[x := INode(w, st[x].gen)], place, r, x)
    ensures Moves(st, place, st[x := INode(w, st[x].gen)], place, r)
  {
    assert MainOk(hash, place, st[x].main, place[x]);
    ListMainsOk(hash, place, st[x].main.entries, place[x], e);
    AddedStep(hash, st, place, st, place, r, x, w);
    StepMoves(hash, st, place, st[x := INode(w, st[x].gen)], place, r, x);
  }

  lemma {:induction false} InsertedEdits(m: Main, i: nat, b: Branch, gen: nat)
    requires m.C? && WellFormed(m) && i < 32 && !m.bmp[i]
    ensures Edited(m, Inserted(m, i, b, gen), i, Some(b))
  {
    forall j: nat | j < 32 ensures WellFormed(Inserted(m, i, b, gen)) && Get(Inserted(m, i, b, gen), j) == if j == i then Some(b) else Get(m, j) {
      InsertedGets(m, i, b, gen, j);
    }
    InsertedGets(m, i, b, gen, 0);
  }

  lemma {:induction false} UpdatedEdits(m: Main, i: nat, b: Branch, gen: nat)
    requires m.C? && WellFormed(m) && i < 32 && m.bmp[i]
    ensures Edited(m, Updated(m, i, b, gen), i, Some(b))
  {
    forall j: nat | j < 32 ensures WellFormed(Updated(m, i, b, gen)) && Get(Updated(m, i, b, gen), j) == if j == i then Some(b) else Get(m, j) {
      UpdatedGets(m, i, b, gen, j);
    }
    UpdatedGets(m, i, b, gen, 0);
  }

  lemma {:induction false} RemovedEdits(m: Main, i: nat, gen: nat)
    requires m.C? && WellFormed(m) && i < 32 && m.bmp[i]
    ensures Edited(m, Removed(m, i, gen), i, None)
  {
    forall j: nat | j < 32 ensures WellFormed(Removed(m, i, gen)) && Get(Removed(m, i, gen), j) == if j == i then None else Get(m, j) {
      RemovedGets(m, i, gen, j);
    }
    RemovedGets(m, i, gen, 0);
  }

  // --------------------------------------------------------------- traversal

  lemma {:induction false} ListFindConcat(a: seq<Entry>, b: seq<Entry>, k: int)
    ensures ListFind(a + b, k) == if ListFind(a, k).Some? then ListFind(a, k) else ListFind(b, k)
  {
    if a == [] {
      assert a + b == b;
    } else {
      assert (a + b)[1..] == a[1..] + b;
      ListFindConcat(a[1..], b, k);
    }
  }

  lemma {:induction false} ListFindMember(es: seq<Entry>, j: nat)
    requires j < |es|
    ensures ListFind(es, es[j].key).Some?
  {
    if j > 0 { ListFindMember(es[1..], j - 1); }
  }

  lemma {:induction false} DistinctConcat(a: seq<Entry>, b: seq<Entry>)
    requires DistinctKeys(a) && DistinctKeys(b)
    requires forall k :: ListFind(a, k).Some? ==> ListFind(b, k) == None
    ensures DistinctKeys(a + b)
  {
    if a == [] {
      assert a + b == b;
    } else {
      assert (a + b)[1..] == a[1..] + b;
      forall k | ListFind(a[1..], k).Some? ensures ListFind(b, k) == None {
        assert ListFind(a, k).Some?;
      }
      DistinctConcat(a[1..], b);
      ListFindMember(a, 0);
      forall j | 1 <= j < |a + b| ensures (a + b)[j].key != a[0].key {
        if j >= |a| { ListFindMember(b, j - |a|); }
      }
    }
  }

  function MapGet(m: map<int, int>, k: int): (v: Option<int>) {
    if k in m then Some(m[k]) else None
  }

  /** A list that holds a map's entries once each is as long as the map. */
  lemma {:induction false} ListCounts(es: seq<Entry>, m: map<int, int>)
    requires DistinctKeys(es) && (forall k :: ListFind(es, k) == MapGet(m, k))
    ensures |es| == |m|
  {
    if es == [] {
      assert m.Keys == {} by {
        forall k ensures k !in m { assert ListFind(es, k) == MapGet(m, k); }
      }
    } else {
      var k0 := es[0].key;
      assert ListFind(es, k0) == MapGet(m, k0);
      var m' := m - {k0};
      forall k ensures ListFind(es[1..], k) == MapGet(m', k) {
        assert ListFind(es, k) == MapGet(m, k);
        if k == k0 { ListFindAbsent(es[1..], k); }
      }
      ListCounts(es[1..], m');
      assert m'.Keys == m.Keys - {k0};
    }
  }

  /** The entries es are what the first j branches of a C-node at place p hold. */
  ghost predicate Lists(hash: Hash, st: Store, m: Main, p: seq<nat>, es: seq<Entry>, j: nat) {
    && DistinctKeys(es) && m.C? && |m.bmp| == 32
    && (forall k :: ListFind(es, k) ==
          if Matches(hash, k, p) && Rank(m.bmp, Chunk(hash, k, |p|)) < j
          then FindBranch(hash, st, Get(m, Chunk(hash, k, |p|)), |p| + 1, k) else None)
  }

  /** What slot i of a C-node at place p holds for a key. */
  ghost function BranchHolds(hash: Hash, st: Store, m: Main, p: seq<nat>, i: nat, k: int): (v: Option<int>)
    requires i < 32
  {
    if Matches(hash, k, p) && Chunk(hash, k, |p|) == i then FindBranch(hash, st, Get(m, i), |p| + 1, k) else None
  }

  /** The entries es are what an I-node at place p holds. */
  ghost predicate Yields(hash: Hash, st: Store, i: nat, p: seq<nat>, es: seq<Entry>) {
    && DistinctKeys(es)
    && (forall k :: ListFind(es, k) == if Matches(hash, k, p) then Find(hash, st, i, |p|, k) else None)
  }

  /** The entries of branch j, which is in slot i, follow those before it. */
  lemma {:induction false} ListsMore(hash: Hash, st: Store, place: Places, m: Main, p: seq<nat>, es: seq<Entry>, i: nat, more: seq<Entry>)
    requires m.C? && MainOk(hash, place, m, p) && i < 32 && m.bmp[i] && Lists(hash, st, m, p, es, Rank(m.bmp, i))
    requires DistinctKeys(more)
    requires forall k :: ListFind(more, k) == BranchHolds(hash, st, m, p, i, k)
    ensures Lists(hash, st, m, p, es + more, Rank(m.bmp, i) + 1)
  {
    DistinctConcat(es, more);
    forall k
      ensures ListFind(es + more, k) ==
              if Matches(hash, k, p) && Rank(m.bmp, Chunk(hash, k, |p|)) < Rank(m.bmp, i) + 1
              then FindBranch(hash, st, Get(m, Chunk(hash, k, |p|)), |p| + 1, k) else None
    {
      ListFindConcat(es, more, k);
      var c := Chunk(hash, k, |p|);
      GetPresent(m, c);
      if c < i { RankGrows(m.bmp, c, i); } else { RankGrows(m.bmp, i, c); }
      assert FindBranch(hash, st, None, |p| + 1, k) == None;
    }
  }

  lemma {:induction false} ListsNext(hash: Hash, st: Store, place: Places, x: nat, es: seq<Entry>, j: nat, more: seq<Entry>)
    requires Inv(hash, st, place) && x in st && st[x].main.C? && j < |st[x].main.branches|
    requires Lists(hash, st, st[x].main, place[x], es, j)
    requires var b := st[x].main.branches[j];
      if b.S? then more == [b.entry] else b.id in place && Yields(hash, st, b.id, place[b.id], more)
    ensures Lists(hash, st, st[x].main, place[x], es + more, j + 1)
  {
    var m := st[x].main;
    assert MainOk(hash, place, m, place[x]);
    var i := BranchHasBit(m.bmp, 32, j);
    BranchYields(hash, st, place, m, place[x], i, more);
    ListsMore(hash, st, place, m, place[x], es, i, more);
  }

  lemma {:induction false} BranchReached(hash: Hash, st: Store, place: Places, r: nat, x: nat, j: nat)
    requires Inv(hash, st, place) && x in st && st[x].main.C? && Reached(st, place, r, x)
    requires j < |st[x].main.branches|
    ensures st[x].main.branches[j].I? ==>
      var c := st[x].main.branches[j].id;
      c in st && Reached(st, place, r, c) && |place[c]| == |place[x]| + 1 <= Depth
  {
    var i := SlotOfBranch(hash, st, place, x, j);
    if st[x].main.branches[j].I? { ChildReached(hash, st, place, r, x, i); }
  }

  lemma {:induction false} ListsAll(hash: Hash, st: Store, place: Places, i: nat, es: seq<Entry>)
    requires Inv(hash, st, place) && i in st && st[i].main.C?
    requires Lists(hash, st, st[i].main, place[i], es, |st[i].main.branches|)
    ensures Yields(hash, st, i, place[i], es)
  {
    var m, p := st[i].main, place[i];
    assert MainOk(hash, place, m, p);
    forall k ensures ListFind(es, k) == if Matches(hash, k, p) then Find(hash, st, i, |p|, k) else None {
      FindUnfolds(hash, st, i, |p|, k);
      GetPresent(m, Chunk(hash, k, |p|));
      assert FindBranch(hash, st, None, |p| + 1, k) == None;
    }
  }

  lemma {:induction false} ListFindsMatching(hash: Hash, es: seq<Entry>, p: seq<nat>, k: int)
    requires forall j :: 0 <= j < |es| ==> Matches(hash, es[j].key, p)
    ensures !Matches(hash, k, p) ==> ListFind(es, k) == None
  {
    if es != [] { ListFindsMatching(hash, es[1..], p, k); }
  }

  lemma {:induction false} LeafYields(hash: Hash, st: Store, place: Places, i: nat)
    requires Inv(hash, st, place) && i in st && !st[i].main.C?
    ensures Yields(hash, st, i, place[i], if st[i].main.T? then [st[i].main.entry] else st[i].main.entries)
  {
    var m, p := st[i].main, place[i];
    var es := if m.T? then [m.entry] else m.entries;
    assert MainOk(hash, place, m, p);
    if m.T? { assert es[1..] == []; assert DistinctKeys(es[1..]); }
    forall k ensures ListFind(es, k) == if Matches(hash, k, p) then Find(hash, st, i, |p|, k) else None {
      ListFindsMatching(hash, es, p, k);
      ListFindIs(hash, st, place, i, k);
      if m.T? { assert ListFind(es[1..], k) == None; }
    }
  }

  /** What one branch holds, listed. */
  lemma {:induction false} BranchYields(hash: Hash, st: Store, place: Places, m: Main, p: seq<nat>, i: nat, more: seq<Entry>)
    requires m.C? && MainOk(hash, place, m, p) && i < 32 && Get(m, i).Some?
    requires Get(m, i).value.S? ==> more == [Get(m, i).value.entry]
    requires Get(m, i).value.I? ==> Get(m, i).value.id in place && Yields(hash, st, Get(m, i).value.id, place[Get(m, i).value.id], more)
    ensures DistinctKeys(more)
    ensures forall k :: ListFind(more, k) == BranchHolds(hash, st, m, p, i, k)
  {
    assert BranchOk(hash, place, Get(m, i), p, i);
    if Get(m, i).value.S? { assert more[1..] == []; assert DistinctKeys(more[1..]); }
    forall k ensures ListFind(more, k) == BranchHolds(hash, st, m, p, i, k) {
      match Get(m, i).value {
        case S(e) =>
          assert ListFind(more[1..], k) == None;
        case I(c) =>
          MatchesChild(hash, k, place[c], p, i);
      }
    }
  }

  // ------------------------------------------------------------- compactness

  /** What an I-node below a root may hold: no empty C-node, no lone entry that is not a tomb, no short list. */
  ghost predicate Compact(m: Main) {
    match m
    case C(_, branches, _) => |branches| >= 2 || (|branches| == 1 && branches[0].I?)
    case T(_) => true
    case L(entries) => |entries| >= 2
  }

  ghost predicate CompactAt(st: Store, place: Places, x: nat) {
    x in st && x in place && place[x] != [] ==> Compact(st[x].main)
  }

  ghost predicate AllCompact(st: Store, place: Places) {
    forall x {:trigger CompactAt(st, place, x)} :: CompactAt(st, place, x)
  }

  lemma {:induction false} CompactWrite(st: Store, place: Places, x: nat, m: Main, gen: nat)
    requires AllCompact(st, place) && x in place && (place[x] != [] ==> Compact(m))
    ensures AllCompact(st[x := INode(m, gen)], place)
  {
    var st' := st[x := INode(m, gen)];
    forall y ensures CompactAt(st', place, y) { assert CompactAt(st, place, y); }
  }

  lemma {:induction false} CompactNew(st: Store, place: Places, n: nat, m: Main, gen: nat, p: seq<nat>)
    requires AllCompact(st, place) && (p != [] ==> Compact(m))
    ensures AllCompact(st[n := INode(m, gen)], place[n := p])
  {
    var st', place' := st[n := INode(m, gen)], place[n := p];
    forall y ensures CompactAt(st', place', y) { assert CompactAt(st, place, y); }
  }

  /** A C-node that is not empty is compact once it is contracted. */
  lemma {:induction false} ContractedIsCompact(m: Main, d: nat)
    requires m.C? && |m.branches| >= 1 && d > 0
    ensures Compact(ToContracted(m, d))
  {
  }

  lemma {:induction false} RenewedIsCompact(st: Store, place: Places, st1: Store, place1: Places, m: Main, rn: Main, gen: nat)
    requires Renews(st, place, st1, place1, m, rn, gen) && Compact(m)
    ensures Compact(rn)
  {
    if |m.branches| == 1 { assert CopyOf(st, place, st1, place1, m.branches[0], rn.branches[0], gen); }
  }

  /** A branch more, an I-node for an entry, or an entry for an entry: the C-node stays compact. */
  lemma {:induction false} EditIsCompact(m: Main, rn: Main, i: nat, b: Branch, gen: nat)
    requires m.C? && rn.C? && rn.bmp == m.bmp && WellFormed(m) && WellFormed(rn) && i < 32 && Compact(m)
    ensures !rn.bmp[i] ==> Compact(Inserted(rn, i, b, gen))
    ensures rn.bmp[i] && (b.I? || (Get(m, i).Some? && Get(m, i).value.S?)) ==> Compact(Updated(rn, i, b, gen))
  {
    GetPresent(m, i);
    GetPresent(rn, i);
    RankGrows(rn.bmp, i, 32);
  }

  lemma {:induction false} RemovalIsCompact(m: Main, i: nat, gen: nat, d: nat)
    requires m.C? && WellFormed(m) && i < 32 && m.bmp[i] && Get(m, i).Some? && Get(m, i).value.S? && Compact(m) && d > 0
    ensures Compact(ToContracted(Removed(m, i, gen), d))
  {
    GetPresent(m, i);
    RankGrows(m.bmp, i, 32);
    ContractedIsCompact(Removed(m, i, gen), d);
  }

  lemma {:induction false} ListShrinksByOne(es: seq<Entry>, k: int)
    ensures |es| - 1 <= |ListRemoved(es, k)| <= |es|
  {
    if es != [] { ListShrinksByOne(es[1..], k); }
  }

  /** No I-node below a root is dead: each leads to an entry. */
  lemma {:induction false} LeadsToEntry(hash: Hash, st: Store, place: Places, x: nat) returns (k: int)
    requires Inv(hash, st, place) && AllCompact(st, place) && x in st && place[x] != []
    ensures Matches(hash, k, place[x]) && Find(hash, st, x, |place[x]|, k).Some?
    decreases Left(|place[x]|)
  {
    assert CompactAt(st, place, x) && MainOk(hash, place, st[x].main, place[x]);
    match st[x].main
    case T(e) =>
      k := e.key;
      ListFindIs(hash, st, place, x, k);
    case L(es) =>
      k := es[0].key;
      ListFindIs(hash, st, place, x, k);
    case C(_, branches, _) =>
      var i := SlotOfBranch(hash, st, place, x, 0);
      assert BranchOk(hash, place, Get(st[x].main, i), place[x], i);
      match branches[0] {
        case S(e) =>
          k := e.key;
        case I(c) =>
          k := LeadsToEntry(hash, st, place, c);
          MatchesChild(hash, k, place[c], place[x], i);
      }
      FindUnfolds(hash, st, x, |place[x]|, k);
  }
}
