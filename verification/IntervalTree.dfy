/**
 * The augmented red-black interval tree of augmentedtree/atree.go. The top-down loops of
 * add and delete work on the path from the root to the node in hand; here the path is a
 * sequence of frames, each a node with a hole where the path goes on.
 */
module IntervalTree {
  import opened Basics

  /** An interval in its first dimension. */
  datatype Interval = Interval(low: int, high: int, id: nat)

  datatype Tree = Nil | Node(iv: Interval, min: int, max: int, red: bool, l: Tree, r: Tree)

  type Side = d: int | 0 <= d <= 1

  function IsRed(t: Tree): (b: bool) { t.Node? && t.red }

  function Kid(t: Tree, d: Side): (k: Tree)
    requires t.Node?
  {
    if d == 0 then t.l else t.r
  }

  function WithKid(t: Tree, d: Side, k: Tree): (r: Tree)
    requires t.Node?
    ensures r.Node?
  {
    if d == 0 then t.(l := k) else t.(r := k)
  }

  // ------------------------------------------------------------------- order

  ghost predicate Less(a: Interval, b: Interval) {
    a.low < b.low || (a.low == b.low && a.id < b.id)
  }

  /** compare: 1 to go right. */
  function Compare(node: Interval, iv: Interval): (d: Side)
    ensures d == 1 <==> Less(node, iv)
  {
    if iv.low > node.low then 1 else if iv.low < node.low then 0 else if iv.id > node.id then 1 else 0
  }

  ghost predicate Sorted(s: seq<Interval>) {
    forall i, j :: 0 <= i < j < |s| ==> Less(s[i], s[j])
  }

  ghost predicate AllBelow(s: seq<Interval>, iv: Interval) {
    forall i :: 0 <= i < |s| ==> Less(s[i], iv)
  }

  ghost predicate NoneBelow(s: seq<Interval>, iv: Interval) {
    forall i :: 0 <= i < |s| ==> !Less(s[i], iv)
  }

  /** The intervals in order. */
  ghost function Flat(t: Tree): (s: seq<Interval>) {
    if t.Nil? then [] else Flat(t.l) + [t.iv] + Flat(t.r)
  }

  // ------------------------------------------------------------------ ranges

  datatype Hull = Empty | Hull(lo: int, hi: int)

  function Point(iv: Interval): (h: Hull) { Hull(iv.low, iv.high) }

  function Join(a: Hull, b: Hull): (h: Hull) {
    if a.Empty? then b
    else if b.Empty? then a
    else Hull(if b.lo < a.lo then b.lo else a.lo, if b.hi > a.hi then b.hi else a.hi)
  }

  /** The min and max fields of a node. */
  function Stored(t: Tree): (h: Hull) { if t.Nil? then Empty else Hull(t.min, t.max) }

  /** The least low and the greatest high below a node. */
  ghost function Range(t: Tree): (h: Hull) {
    if t.Nil? then Empty else Join(Join(Point(t.iv), Range(t.l)), Range(t.r))
  }

  /** Every node's min and max are those of its intervals. */
  ghost predicate Exact(t: Tree) {
    t.Node? ==> Stored(t) == Range(t) && Exact(t.l) && Exact(t.r)
  }

  /** setMin and setMax */
  function SetRange(t: Tree): (r: Tree)
    requires t.Node?
    ensures r.Node? && Stored(r) == Join(Join(Point(t.iv), Stored(t.l)), Stored(t.r)) && r == t.(min := r.min, max := r.max)
  {
    var h := Join(Join(Point(t.iv), Stored(t.l)), Stored(t.r));
    t.(min := h.lo, max := h.hi)
  }

  // --------------------------------------------------------------- rotations

  /** rotate */
  function Rotate(parent: Tree, d: Side): (r: Tree)
    requires parent.Node? && Kid(parent, 1 - d).Node?
    ensures r.Node?
  {
    var child := Kid(parent, 1 - d);
    var parent1 := WithKid(parent, 1 - d, Kid(child, d)).(red := true);
    var child1 := SetRange(WithKid(child, d, parent1).(red := false));
    WithKid(child1, d, SetRange(parent1))
  }

  /** doubleRotate */
  function DoubleRotate(parent: Tree, d: Side): (r: Tree)
    requires parent.Node? && Kid(parent, 1 - d).Node? && Kid(Kid(parent, 1 - d), d).Node?
    ensures r.Node?
  {
    Rotate(WithKid(parent, 1 - d, Rotate(Kid(parent, 1 - d), 1 - d)), d)
  }

  lemma {:induction false} RotateFlat(t: Tree, d: Side)
    requires t.Node? && Kid(t, 1 - d).Node?
    ensures Flat(Rotate(t, d)) == Flat(t)
  {
    var c, r := Kid(t, 1 - d), Rotate(t, d);
    var k := Kid(r, d);
    assert Flat(k) == Flat(k.l) + [k.iv] + Flat(k.r);
    assert Flat(c) == Flat(c.l) + [c.iv] + Flat(c.r);
    if d == 0 {
      assert Flat(r) == Flat(t.l) + [t.iv] + Flat(c.l) + [c.iv] + Flat(c.r);
    } else {
      assert Flat(r) == Flat(c.l) + [c.iv] + Flat(c.r) + [t.iv] + Flat(t.r);
    }
  }

  lemma {:induction false} WithKidFlat(t: Tree, d: Side, k: Tree)
    requires t.Node? && Flat(k) == Flat(Kid(t, d))
    ensures Flat(WithKid(t, d, k)) == Flat(t)
  {
  }

  lemma {:induction false} DoubleRotateFlat(t: Tree, d: Side)
    requires t.Node? && Kid(t, 1 - d).Node? && Kid(Kid(t, 1 - d), d).Node?
    ensures Flat(DoubleRotate(t, d)) == Flat(t)
  {
    RotateFlat(Kid(t, 1 - d), 1 - d);
    var t1 := WithKid(t, 1 - d, Rotate(Kid(t, 1 - d), 1 - d));
    WithKidFlat(t, 1 - d, Rotate(Kid(t, 1 - d), 1 - d));
    RotateFlat(t1, d);
  }

  // -------------------------------------------------------------------- path

  /** A node with a hole at side `dir`. */
  datatype Frame = Frame(iv: Interval, min: int, max: int, red: bool, dir: Side, sib: Tree)

  function Open(t: Tree, d: Side): (f: Frame)
    requires t.Node?
    ensures Fill(f, Kid(t, d)) == t
  {
    Frame(t.iv, t.min, t.max, t.red, d, Kid(t, 1 - d))
  }

  function Fill(f: Frame, t: Tree): (r: Tree)
    ensures r.Node? && Kid(r, f.dir) == t && Kid(r, 1 - f.dir) == f.sib
  {
    if f.dir == 0 then Node(f.iv, f.min, f.max, f.red, t, f.sib) else Node(f.iv, f.min, f.max, f.red, f.sib, t)
  }

  /** The tree with `t` in the hole at the end of the path. */
  function Plug(fs: seq<Frame>, t: Tree): (r: Tree)
    decreases |fs|
  {
    if fs == [] then t else Plug(fs[..|fs| - 1], Fill(fs[|fs| - 1], t))
  }

  /** What lies before the hole of a frame, and after it. */
  ghost function BeforeIn(f: Frame): (s: seq<Interval>) { if f.dir == 1 then Flat(f.sib) + [f.iv] else [] }

  ghost function AfterIn(f: Frame): (s: seq<Interval>) { if f.dir == 0 then [f.iv] + Flat(f.sib) else [] }

  /** What lies before the hole, and what lies after it. */
  ghost function Before(fs: seq<Frame>): (s: seq<Interval>) {
    if fs == [] then []
    else
      var f := fs[|fs| - 1];
      Before(fs[..|fs| - 1]) + BeforeIn(f)
  }

  ghost function After(fs: seq<Frame>): (s: seq<Interval>) {
    if fs == [] then []
    else
      var f := fs[|fs| - 1];
      AfterIn(f) + After(fs[..|fs| - 1])
  }

  lemma {:induction false} FillFlat(f: Frame, t: Tree)
    ensures Flat(Fill(f, t)) == BeforeIn(f) + Flat(t) + AfterIn(f)
  {
  }

  lemma {:induction false} Nest(a: seq<Interval>, b: seq<Interval>, t: seq<Interval>, c: seq<Interval>, d: seq<Interval>)
    ensures a + (b + t + c) + d == (a + b) + t + (c + d)
  {
  }

  lemma {:induction false} PlugFlat(fs: seq<Frame>, t: Tree)
    ensures Flat(Plug(fs, t)) == Before(fs) + Flat(t) + After(fs)
    decreases |fs|
  {
    if fs != [] {
      var f, front := fs[|fs| - 1], fs[..|fs| - 1];
      PlugFlat(front, Fill(f, t));
      FillFlat(f, t);
      Nest(Before(front), BeforeIn(f), Flat(t), AfterIn(f), After(front));
    }
  }

  lemma {:induction false} PlugMore(fs: seq<Frame>, f: Frame, t: Tree)
    ensures Plug(fs + [f], t) == Plug(fs, Fill(f, t))
  {
    assert (fs + [f])[..|fs|] == fs;
  }

  // --------------------------------------------------------- red-black rules

  /** Black height h, and no red node with a red child. */
  ghost predicate RB(t: Tree, h: int) {
    if t.Nil? then h == 0
    else
      && (t.red ==> !IsRed(t.l) && !IsRed(t.r))
      && RB(t.l, if t.red then h else h - 1) && RB(t.r, if t.red then h else h - 1)
  }

  lemma {:induction false} RBPositive(t: Tree, h: int)
    requires RB(t, h)
    ensures h >= 0 && (t.Node? && !t.red ==> h >= 1) && (!IsRed(t) && h == 0 ==> t.Nil?)
  {
    if t.Node? { RBPositive(t.l, if t.red then h else h - 1); }
  }

  /** A tree of black height h, with a red root or not, may fill the hole. */
  ghost predicate Fits(fs: seq<Frame>, h: int, red: bool)
    decreases |fs|
  {
    fs == [] ||
    (var f := fs[|fs| - 1];
     && (f.red ==> !red && !IsRed(f.sib)) && RB(f.sib, h)
     && Fits(fs[..|fs| - 1], if f.red then h else h + 1, f.red))
  }

  lemma {:induction false} FitsBlack(fs: seq<Frame>, h: int, red: bool)
    requires Fits(fs, h, red)
    ensures Fits(fs, h, false)
  {
  }

  lemma {:induction false} PlugRB(fs: seq<Frame>, t: Tree, h: int) returns (h': int)
    requires RB(t, h) && Fits(fs, h, IsRed(t))
    ensures RB(Plug(fs, t), h')
    decreases |fs|
  {
    if fs == [] {
      h' := h;
    } else {
      var f := fs[|fs| - 1];
      h' := PlugRB(fs[..|fs| - 1], Fill(f, t), if f.red then h else h + 1);
    }
  }

  /** Blackening the root keeps the rules. */
  function Blackened(t: Tree): (r: Tree) {
    if t.Nil? then Nil else t.(red := false)
  }

  lemma {:induction false} BlackenRB(t: Tree, h: int) returns (h': int)
    requires RB(t, h)
    ensures RB(Blackened(t), h')
  {
    h' := if IsRed(t) then h + 1 else h;
  }

  // ------------------------------------------------------- ranges on the path

  /** Off the path all ranges are exact; on it each is that of the node, its other child and what is in the hole. */
  ghost predicate RangeFits(fs: seq<Frame>, hole: Hull)
    decreases |fs|
  {
    fs == [] ||
    (var f := fs[|fs| - 1];
     && Hull(f.min, f.max) == Join(Join(Point(f.iv), Range(f.sib)), hole) && Exact(f.sib)
     && RangeFits(fs[..|fs| - 1], Hull(f.min, f.max)))
  }

  lemma {:induction false} JoinLaws(a: Hull, b: Hull, c: Hull)
    ensures Join(a, b) == Join(b, a) && Join(Join(a, b), c) == Join(a, Join(b, c)) && Join(a, a) == a
    ensures Join(Join(a, b), b) == Join(a, b) && Join(Join(a, b), c) == Join(Join(a, c), b)
  {
  }

  lemma {:induction false} PlugExact(fs: seq<Frame>, t: Tree)
    requires Exact(t) && RangeFits(fs, Range(t))
    ensures Exact(Plug(fs, t))
    decreases |fs|
  {
    if fs != [] {
      var f := fs[|fs| - 1];
      JoinLaws(Point(f.iv), Range(f.sib), Range(t));
      PlugExact(fs[..|fs| - 1], Fill(f, t));
    }
  }

  /** An interval of the tree adds nothing to its range. */
  lemma {:induction false} RangeHas(t: Tree, iv: Interval)
    requires iv in Flat(t)
    ensures Join(Range(t), Point(iv)) == Range(t)
  {
    var a, b, c := Point(t.iv), Range(t.l), Range(t.r);
    if iv in Flat(t.l) {
      RangeHas(t.l, iv);
    } else if iv in Flat(t.r) {
      RangeHas(t.r, iv);
    } else {
      assert iv == t.iv;
    }
  }

  // --------------------------------------------------------------- insertion

  /** Two red children and a black node exchange colours. */
  function Flip(t: Tree): (r: Tree)
    requires t.Node?
    ensures r.Node? && r.iv == t.iv && Stored(r) == Stored(t)
  {
    if IsRed(t.l) && IsRed(t.r) then t.(red := true, l := t.l.(red := false), r := t.r.(red := false)) else t
  }

  /** The range of a node on the way of a new interval. */
  function Stretch(t: Tree, iv: Interval): (r: Tree)
    requires t.Node?
    ensures r.Node? && Stored(r) == Join(Stored(t), Point(iv)) && r == t.(min := r.min, max := r.max)
  {
    t.(max := if iv.high > t.max then iv.high else t.max, min := if iv.low < t.min then iv.low else t.min)
  }

  ghost predicate BothRed(t: Tree) { t.Node? && IsRed(t.l) && IsRed(t.r) }

  /** A node that will not be flipped. */
  ghost predicate Calm(t: Tree) { t.Node? && !BothRed(t) }

  lemma {:induction false} FlipFacts(t: Tree, iv: Interval, h: int)
    requires t.Node? && RB(t, h)
    ensures var r := Stretch(Flip(t), iv);
      && Flat(r) == Flat(t) && RB(r, h) && r.iv == t.iv && !BothRed(r)
      && (BothRed(t) ==> r.red && !t.red && Calm(r.l) && Calm(r.r))
      && (!BothRed(t) ==> r.red == t.red && r.l == t.l && r.r == t.r)
  {
    var r := Stretch(Flip(t), iv);
    if BothRed(t) {
      assert Flat(r.l) == Flat(t.l) && Flat(r.r) == Flat(t.r);
    }
  }

  lemma {:induction false} FlipRange(t: Tree, iv: Interval)
    requires t.Node? && Exact(t)
    ensures var r := Stretch(Flip(t), iv);
      Exact(r.l) && Exact(r.r) && Stored(r) == Join(Range(r), Point(iv))
  {
    var r := Stretch(Flip(t), iv);
    assert Range(r.l) == Range(t.l) && Range(r.r) == Range(t.r);
  }

  ghost predicate ParentRed(fs: seq<Frame>) { |fs| > 0 && fs[|fs| - 1].red }

  ghost predicate UncleBlack(fs: seq<Frame>) { |fs| > 1 && !IsRed(fs[|fs| - 2].sib) }

  /** The grandparent, with the parent and the node below it. */
  function GrandTree(fs: seq<Frame>, t: Tree): (g: Tree)
    requires |fs| > 1
    ensures g.Node?
  {
    Fill(fs[|fs| - 2], Fill(fs[|fs| - 1], t))
  }

  /** The path and the node in hand. */
  datatype Zip = Zip(fs: seq<Frame>, t: Tree)

  /** The rotation that mends a red node below a red parent. */
  function Mend(fs: seq<Frame>, t: Tree): (z: Zip)
    requires |fs| > 1 && t.Node?
  {
    var d := fs[|fs| - 2].dir;
    if fs[|fs| - 1].dir == d then
      var top := Rotate(GrandTree(fs, t), 1 - d);
      Zip(fs[..|fs| - 2] + [Open(top, d)], Kid(top, d))
    else
      Zip(fs[..|fs| - 2], DoubleRotate(GrandTree(fs, t), 1 - d))
  }

  /** The frame after a single rotation. */
  lemma {:induction false} MendSingle(fs: seq<Frame>, t: Tree)
    requires |fs| > 1 && t.Node? && fs[|fs| - 1].dir == fs[|fs| - 2].dir
    ensures var g, p, z := fs[|fs| - 2], fs[|fs| - 1], Mend(fs, t);
      && |z.fs| == |fs| - 1 && z.fs[..|fs| - 2] == fs[..|fs| - 2] && z.t == t
      && var f := z.fs[|fs| - 2];
      && f.iv == p.iv && !f.red && f.dir == p.dir
      && f.sib.Node? && f.sib.iv == g.iv && f.sib.red && Kid(f.sib, p.dir) == p.sib && Kid(f.sib, 1 - p.dir) == g.sib
      && Stored(f.sib) == Join(Join(Point(g.iv), Stored(f.sib.l)), Stored(f.sib.r))
      && Hull(f.min, f.max) == (if p.dir == 1 then Join(Join(Point(p.iv), Hull(g.min, g.max)), Stored(t))
                                else Join(Join(Point(p.iv), Stored(t)), Hull(g.min, g.max)))
  {
    var z := Mend(fs, t);
    assert z.fs[..|fs| - 2] == fs[..|fs| - 2];
  }

  /** The node after a double rotation. */
  lemma {:induction false} MendDouble(fs: seq<Frame>, t: Tree)
    requires |fs| > 1 && t.Node? && fs[|fs| - 1].dir != fs[|fs| - 2].dir
    ensures var g, p, z := fs[|fs| - 2], fs[|fs| - 1], Mend(fs, t);
      && z.fs == fs[..|fs| - 2] && z.t.Node? && z.t.iv == t.iv && !z.t.red
      && var a, b := Kid(z.t, g.dir), Kid(z.t, p.dir);
      && a.Node? && a.iv == p.iv && a.red && Kid(a, g.dir) == p.sib && Kid(a, p.dir) == Kid(t, g.dir)
      && b.Node? && b.iv == g.iv && b.red && Kid(b, p.dir) == g.sib && Kid(b, g.dir) == Kid(t, p.dir)
      && Stored(a) == Join(Join(Point(p.iv), Stored(a.l)), Stored(a.r))
      && Stored(b) == Join(Join(Point(g.iv), Stored(b.l)), Stored(b.r))
      && Stored(z.t) == (if g.dir == 0 then Join(Join(Point(t.iv), Stored(a)), Hull(g.min, g.max))
                         else Join(Join(Point(t.iv), Hull(g.min, g.max)), Stored(a)))
  {
  }

  lemma {:induction false} MendFlat(fs: seq<Frame>, t: Tree)
    requires |fs| > 1 && t.Node?
    ensures var z := Mend(fs, t); Before(z.fs) + Flat(z.t) + After(z.fs) == Before(fs) + Flat(t) + After(fs)
  {
    var z, d := Mend(fs, t), fs[|fs| - 2].dir;
    var g := GrandTree(fs, t);
    var front := fs[..|fs| - 2];
    PlugFlat(fs, t);
    PlugFlat(z.fs, z.t);
    assert fs[..|fs| - 1][..|fs| - 2] == front;
    assert Plug(fs, t) == Plug(front, g);
    PlugFlat(front, g);
    if fs[|fs| - 1].dir == d {
      RotateFlat(g, 1 - d);
      PlugMore(front, Open(Rotate(g, 1 - d), d), z.t);
      PlugFlat(front, Rotate(g, 1 - d));
    } else {
      DoubleRotateFlat(g, 1 - d);
    }
  }

  lemma {:induction false} MendRB(fs: seq<Frame>, t: Tree, h: int)
    requires |fs| > 1 && IsRed(t) && RB(t, h) && Fits(fs, h, false) && ParentRed(fs) && UncleBlack(fs)
    ensures var z := Mend(fs, t);
      var h' := if fs[|fs| - 1].dir == fs[|fs| - 2].dir then h else h + 1;
      RB(z.t, h') && Fits(z.fs, h', IsRed(z.t))
  {
    var g, p, z := fs[|fs| - 2], fs[|fs| - 1], Mend(fs, t);
    assert fs[..|fs| - 1][..|fs| - 2] == fs[..|fs| - 2];
    assert fs[..|fs| - 1][|fs| - 2] == g;
    assert Fits(fs[..|fs| - 1], h, true);
    assert !g.red && RB(g.sib, h) && Fits(fs[..|fs| - 2], h + 1, false);
    if p.dir == g.dir {
      MendSingle(fs, t);
    } else {
      MendDouble(fs, t);
    }
  }

  /** Both orders in which setMin and setMax look at three hulls agree. */
  ghost predicate Joined(h: Hull, a: Hull, b: Hull, c: Hull) {
    h == Join(Join(a, b), c) && h == Join(Join(a, c), b)
  }

  lemma {:induction false} SingleHulls(p: Hull, g: Hull, ps: Hull, gs: Hull, t: Hull, hp: Hull, hg: Hull, hf: Hull)
    requires hp == Join(Join(p, ps), t) && hg == Join(Join(g, gs), hp) && Joined(hf, p, hg, t)
    ensures hf == hg && hf == Join(Join(p, Join(Join(g, ps), gs)), t) && hf == Join(Join(p, Join(Join(g, gs), ps)), t)
  {
  }

  /** u adds nothing to h. */
  ghost predicate Within(u: Hull, h: Hull) { Join(h, u) == h }

  lemma {:induction false} WithinJoin(u: Hull, v: Hull, h: Hull)
    ensures Within(Join(u, v), h) <==> Within(u, h) && Within(v, h)
    ensures Within(h, h)
  {
  }

  lemma {:induction false} WithinBoth(u: Hull, h: Hull)
    requires Within(u, h) && Within(h, u)
    ensures u == h
  {
  }

  /** What three joined hulls are within. */
  lemma {:induction false} WithinThree(u: Hull, a: Hull, b: Hull, c: Hull, h: Hull)
    requires u == Join(Join(a, b), c)
    ensures Within(u, h) <==> Within(a, h) && Within(b, h) && Within(c, h)
    ensures Within(u, u)
  {
    WithinJoin(Join(a, b), c, h);
    WithinJoin(a, b, h);
    WithinJoin(u, u, u);
  }

  lemma {:induction false} DoubleHulls(p: Hull, g: Hull, q: Hull, ps: Hull, gs: Hull, x: Hull, y: Hull, i: Hull, t: Hull,
                                       hp: Hull, hg: Hull, a: Hull, b: Hull, top: Hull)
    requires t == Join(Join(Join(q, x), y), i) && hp == Join(Join(p, ps), t) && hg == Join(Join(g, gs), hp)
    requires Joined(a, p, ps, x) && Joined(b, g, gs, y) && Joined(top, q, a, hg)
    ensures top == hg && top == Join(Join(Join(q, a), b), i)
  {
    var all := Join(Join(Join(q, a), b), i);
    forall h ensures Within(hg, h) <==> Within(all, h) {
      WithinThree(hg, g, gs, hp, h);
      WithinThree(hp, p, ps, t, h);
      WithinThree(t, Join(q, x), y, i, h);
      WithinJoin(q, x, h);
      WithinThree(all, Join(q, a), b, i, h);
      WithinJoin(q, a, h);
      WithinThree(a, p, ps, x, h);
      WithinThree(b, g, gs, y, h);
    }
    forall h ensures Within(top, h) <==> Within(hg, h) {
      WithinThree(top, q, a, hg, h);
      WithinJoin(q, a, h);
      WithinThree(all, Join(q, a), b, i, h);
    }
    WithinJoin(hg, hg, hg);
    WithinJoin(all, all, all);
    WithinJoin(top, top, top);
    WithinBoth(hg, all);
    WithinBoth(top, hg);
  }

  /** A node on the way of iv, with iv in its range. */
  ghost predicate Stretched(t: Tree, iv: Interval) {
    t.Node? && Exact(t.l) && Exact(t.r) && Stored(t) == Join(Range(t), Point(iv))
  }

  lemma {:induction false} MendRangeSingle(fs: seq<Frame>, t: Tree, iv: Interval)
    requires |fs| > 1 && Stretched(t, iv) && RangeFits(fs, Stored(t)) && fs[|fs| - 1].dir == fs[|fs| - 2].dir
    ensures var z := Mend(fs, t); z.t == t && RangeFits(z.fs, Stored(t))
  {
    var g, p, z := fs[|fs| - 2], fs[|fs| - 1], Mend(fs, t);
    MendSingle(fs, t);
    assert fs[..|fs| - 1][..|fs| - 2] == fs[..|fs| - 2];
    assert fs[..|fs| - 1][|fs| - 2] == g;
    assert RangeFits(fs[..|fs| - 1], Hull(p.min, p.max));
    assert RangeFits(fs[..|fs| - 2], Hull(g.min, g.max));
    var f := z.fs[|fs| - 2];
    assert Exact(f.sib);
    JoinLaws(Point(p.iv), Hull(g.min, g.max), Stored(t));
    JoinLaws(Point(g.iv), Range(p.sib), Range(g.sib));
    SingleHulls(Point(p.iv), Point(g.iv), Range(p.sib), Range(g.sib), Stored(t), Hull(p.min, p.max), Hull(g.min, g.max), Hull(f.min, f.max));
  }

  lemma {:induction false} MendRangeDouble(fs: seq<Frame>, t: Tree, iv: Interval)
    requires |fs| > 1 && Stretched(t, iv) && RangeFits(fs, Stored(t)) && fs[|fs| - 1].dir != fs[|fs| - 2].dir
    ensures var z := Mend(fs, t); Stretched(z.t, iv) && RangeFits(z.fs, Stored(z.t))
  {
    var g, p, z := fs[|fs| - 2], fs[|fs| - 1], Mend(fs, t);
    MendDouble(fs, t);
    assert fs[..|fs| - 1][..|fs| - 2] == fs[..|fs| - 2];
    assert fs[..|fs| - 1][|fs| - 2] == g;
    assert RangeFits(fs[..|fs| - 1], Hull(p.min, p.max));
    assert RangeFits(fs[..|fs| - 2], Hull(g.min, g.max));
    var a, b := Kid(z.t, g.dir), Kid(z.t, p.dir);
    var x, y := Kid(t, g.dir), Kid(t, p.dir);
    assert Exact(a) && Exact(b);
    JoinLaws(Point(t.iv), Range(x), Range(y));
    JoinLaws(Point(p.iv), Range(p.sib), Range(x));
    JoinLaws(Point(g.iv), Range(g.sib), Range(y));
    JoinLaws(Point(t.iv), Range(a), Hull(g.min, g.max));
    DoubleHulls(Point(p.iv), Point(g.iv), Point(t.iv), Range(p.sib), Range(g.sib), Range(x), Range(y), Point(iv), Stored(t),
                Hull(p.min, p.max), Hull(g.min, g.max), Range(a), Range(b), Stored(z.t));
    JoinLaws(Point(t.iv), Range(a), Range(b));
  }

  // ---------------------------------------------------- where the search goes

  /** The hole is where iv belongs. */
  ghost predicate Placed(fs: seq<Frame>, t: Tree, iv: Interval, all: seq<Interval>) {
    Before(fs) + Flat(t) + After(fs) == all && AllBelow(Before(fs), iv) && NoneBelow(After(fs), iv)
  }

  lemma {:induction false} BeforeMore(fs: seq<Frame>, f: Frame)
    ensures Before(fs + [f]) == Before(fs) + BeforeIn(f)
    ensures After(fs + [f]) == AfterIn(f) + After(fs)
  {
    assert (fs + [f])[..|fs|] == fs;
  }

  /** In a sorted sequence, all before a smaller element are smaller, and all after a larger one larger. */
  lemma {:induction false} SplitSorted(all: seq<Interval>, a: seq<Interval>, l: seq<Interval>, x: Interval, r: seq<Interval>, c: seq<Interval>, iv: Interval)
    requires Sorted(all) && all == a + (l + [x] + r) + c
    ensures Less(x, iv) ==> AllBelow(l + [x], iv)
    ensures !Less(x, iv) ==> NoneBelow([x] + r, iv)
  {
    var n, m := |a|, |a| + |l|;
    assert all[m] == x;
    if Less(x, iv) {
      forall i | 0 <= i < |l + [x]| ensures Less((l + [x])[i], iv) {
        assert (l + [x])[i] == all[n + i];
      }
    } else {
      forall i | 0 <= i < |[x] + r| ensures !Less(([x] + r)[i], iv) {
        assert ([x] + r)[i] == all[m + i];
      }
    }
  }

  lemma {:induction false} BothBelow(a: seq<Interval>, b: seq<Interval>, iv: Interval)
    ensures AllBelow(a, iv) && AllBelow(b, iv) <==> AllBelow(a + b, iv)
    ensures NoneBelow(a, iv) && NoneBelow(b, iv) <==> NoneBelow(a + b, iv)
  {
    if AllBelow(a + b, iv) {
      forall i | 0 <= i < |a| ensures Less(a[i], iv) { assert a[i] == (a + b)[i]; }
      forall i | 0 <= i < |b| ensures Less(b[i], iv) { assert b[i] == (a + b)[|a| + i]; }
    }
    if NoneBelow(a + b, iv) {
      forall i | 0 <= i < |a| ensures !Less(a[i], iv) { assert a[i] == (a + b)[i]; }
      forall i | 0 <= i < |b| ensures !Less(b[i], iv) { assert b[i] == (a + b)[|a| + i]; }
    }
  }

  /** Following compare stays on the way to where iv belongs. */
  lemma {:induction false} DescendPlaced(fs: seq<Frame>, t: Tree, iv: Interval, all: seq<Interval>)
    requires t.Node? && Sorted(all) && Placed(fs, t, iv, all)
    ensures var d := Compare(t.iv, iv); Placed(fs + [Open(t, d)], Kid(t, d), iv, all)
  {
    var d := Compare(t.iv, iv);
    BeforeMore(fs, Open(t, d));
    SplitSorted(all, Before(fs), Flat(t.l), t.iv, Flat(t.r), After(fs), iv);
    BothBelow(Before(fs), BeforeIn(Open(t, d)), iv);
    BothBelow(AfterIn(Open(t, d)), After(fs), iv);
    OpenFlat(fs, t, d);
  }

  lemma {:induction false} OpenFlat(fs: seq<Frame>, t: Tree, d: Side)
    requires t.Node?
    ensures Before(fs + [Open(t, d)]) + Flat(Kid(t, d)) + After(fs + [Open(t, d)]) == Before(fs) + Flat(t) + After(fs)
  {
    PlugMore(fs, Open(t, d), Kid(t, d));
    PlugFlat(fs + [Open(t, d)], Kid(t, d));
    PlugFlat(fs, t);
  }

  /** On the path compare always went the way the path goes. */
  lemma {:induction false} LastDir(fs: seq<Frame>, iv: Interval)
    requires |fs| > 0 && AllBelow(Before(fs), iv) && NoneBelow(After(fs), iv)
    ensures Compare(fs[|fs| - 1].iv, iv) == fs[|fs| - 1].dir
    ensures AllBelow(Before(fs[..|fs| - 1]), iv) && NoneBelow(After(fs[..|fs| - 1]), iv)
  {
    var f, front := fs[|fs| - 1], fs[..|fs| - 1];
    if f.dir == 1 {
      BothBelow(Before(front), Flat(f.sib) + [f.iv], iv);
      BothBelow(Flat(f.sib), [f.iv], iv);
      assert Less([f.iv][0], iv);
      assert After(fs) == After(front);
    } else {
      BothBelow([f.iv] + Flat(f.sib), After(front), iv);
      BothBelow([f.iv], Flat(f.sib), iv);
      assert !Less([f.iv][0], iv);
      assert Before(fs) == Before(front);
    }
  }

  lemma {:induction false} MendPlaced(fs: seq<Frame>, t: Tree, iv: Interval, all: seq<Interval>)
    requires |fs| > 1 && t.Node? && Placed(fs, t, iv, all)
    ensures Placed(Mend(fs, t).fs, Mend(fs, t).t, iv, all)
    ensures Compare(fs[|fs| - 1].iv, iv) == fs[|fs| - 1].dir && Compare(fs[|fs| - 2].iv, iv) == fs[|fs| - 2].dir
  {
    var z, n := Mend(fs, t), |fs|;
    MendFlat(fs, t);
    LastDir(fs, iv);
    LastDir(fs[..n - 1], iv);
    assert fs[..n - 1][..n - 2] == fs[..n - 2];
    if fs[n - 1].dir == fs[n - 2].dir {
      MendSingle(fs, t);
      SingleBefore(fs, t);
    }
  }

  lemma {:induction false} SingleBefore(fs: seq<Frame>, t: Tree)
    requires |fs| > 1 && t.Node? && fs[|fs| - 1].dir == fs[|fs| - 2].dir
    ensures Before(Mend(fs, t).fs) == Before(fs) && After(Mend(fs, t).fs) == After(fs)
  {
    var g, p, z, n := fs[|fs| - 2], fs[|fs| - 1], Mend(fs, t), |fs|;
    MendSingle(fs, t);
    var f, front := z.fs[n - 2], fs[..n - 2];
    assert z.fs == front + [f] && fs == front + [g] + [p];
    SingleSides(g, p, f);
    BeforeMore(front, f);
    BeforeMore(front, g);
    BeforeMore(front + [g], p);
    Assoc(Before(front), BeforeIn(g), BeforeIn(p));
    Assoc(AfterIn(p), AfterIn(g), After(front));
  }

  lemma {:induction false} SingleSides(g: Frame, p: Frame, f: Frame)
    requires g.dir == p.dir == f.dir && f.iv == p.iv && f.sib.Node? && f.sib.iv == g.iv
    requires Kid(f.sib, p.dir) == p.sib && Kid(f.sib, 1 - p.dir) == g.sib
    ensures BeforeIn(f) == BeforeIn(g) + BeforeIn(p) && AfterIn(f) == AfterIn(p) + AfterIn(g)
  {
    assert Flat(f.sib) == Flat(f.sib.l) + [g.iv] + Flat(f.sib.r);
  }

  // ------------------------------------------------------ the insertion loop

  /** The child that a search for iv takes next is calm. */
  ghost predicate CalmNext(t: Tree, iv: Interval) {
    t.Node? && Calm(Kid(t, Compare(t.iv, iv)))
  }

  /** The variables of add's loop that name nodes, by their intervals' ids; the dummy is None. */
  datatype Vars = Vars(helper: Option<nat>, grandParent: Option<nat>, parent: Option<nat>, last: Side, dir: Side)

  /** The variables parent and dir: the node above the one in hand, and the side it hangs on. */
  ghost predicate ParentIs(fs: seq<Frame>, v: Vars) {
    if fs == [] then v.parent == None else v.parent == Some(fs[|fs| - 1].iv.id) && v.dir == fs[|fs| - 1].dir
  }

  /** The variables grandParent and last name the node above the parent and the parent's side. */
  ghost predicate GrandParentIs(fs: seq<Frame>, v: Vars) {
    if |fs| <= 1 then v.grandParent == None else v.grandParent == Some(fs[|fs| - 2].iv.id) && v.last == fs[|fs| - 2].dir
  }

  /** The variable helper names the node above that one. */
  ghost predicate HelperIs(fs: seq<Frame>, v: Vars) {
    v.helper == if |fs| <= 2 then None else Some(fs[|fs| - 3].iv.id)
  }

  /** The end of a round: the variables move on to node `id` and its child at side `d`. */
  function Move(v: Vars, id: nat, d: Side): (r: Vars) {
    Vars(if v.grandParent.Some? then v.grandParent else v.helper, v.parent, Some(id), v.dir, d)
  }

  /** What the variables are known to name at the head of the loop. */
  ghost predicate Names(fs: seq<Frame>, v: Vars, helper: bool, grand: bool) {
    && ParentIs(fs, v) && (grand ==> GrandParentIs(fs, v)) && (helper ==> HelperIs(fs, v))
    && (v.grandParent == None ==> v.helper == None) && (fs == [] ==> v.grandParent == None)
  }

  /** After a round without rotation they name the ancestors if they did one level up. */
  lemma {:induction false} NamesMove(fs: seq<Frame>, v: Vars, helper: bool, grand: bool, f: Frame)
    requires Names(fs, v, helper, grand)
    ensures Names(fs + [f], Move(v, f.iv.id, f.dir), grand, true)
  {
    var gs := fs + [f];
    assert gs[|fs|] == f;
    if |fs| > 0 { assert gs[|fs| - 1] == fs[|fs| - 1]; }
    if |fs| > 1 { assert gs[|fs| - 2] == fs[|fs| - 2]; }
  }

  /** After a single rotation the parent is still the parent; helper names a node off the path. */
  lemma {:induction false} NamesSingle(fs: seq<Frame>, v: Vars, fs': seq<Frame>, f: Frame)
    requires |fs| > 1 && Names(fs, v, true, true) && |fs'| == |fs| - 1
    requires fs'[|fs'| - 1].iv == fs[|fs| - 1].iv && fs'[|fs'| - 1].dir == fs[|fs| - 1].dir
    ensures Names(fs' + [f], Move(v, f.iv.id, f.dir), false, true)
  {
    var gs := fs' + [f];
    assert gs[|fs'|] == f && gs[|fs'| - 1] == fs'[|fs'| - 1];
  }

  /** After a double rotation only the parent is as it should be. */
  lemma {:induction false} NamesDouble(fs: seq<Frame>, v: Vars, fs': seq<Frame>, f: Frame)
    requires |fs| > 1 && Names(fs, v, true, true)
    ensures Names(fs' + [f], Move(v, f.iv.id, f.dir), false, false)
  {
    assert (fs' + [f])[|fs'|] == f;
  }

  /**
   * At the head of the loop, with t the node to visit. A red parent whose sibling is red
   * too has a calm child on the path. `helper` and `grand` say whether the variables
   * helper and grandParent are known to name the nodes two and one above the parent (see
   * Names); while they are not, no rotation is due.
   */
  ghost predicate Ready(fs: seq<Frame>, t: Tree, iv: Interval, all: seq<Interval>, h: int, helper: bool, grand: bool) {
    && Placed(fs, t, iv, all) && RB(t, h) && Fits(fs, h, IsRed(t))
    && Exact(t) && RangeFits(fs, Join(Range(t), Point(iv)))
    && (fs == [] ==> !IsRed(t))
    && (ParentRed(fs) ==> Calm(t) || UncleBlack(fs))
    && (|fs| > 0 && IsRed(t) && IsRed(fs[|fs| - 1].sib) ==> CalmNext(t, iv))
    && (!helper ==> Calm(t)) && (!grand ==> !helper && CalmNext(t, iv))
  }

  /** After the visit, before the step down. */
  ghost predicate Visited(fs: seq<Frame>, t: Tree, iv: Interval, all: seq<Interval>, h: int, helper: bool, grand: bool) {
    && Placed(fs, t, iv, all) && RB(t, h) && Fits(fs, h, IsRed(t))
    && Stretched(t, iv) && RangeFits(fs, Stored(t))
    && (IsRed(t) ==> CalmNext(t, iv) || (|fs| > 0 && !IsRed(fs[|fs| - 1].sib)))
    && (BothRed(t) ==> CalmNext(Kid(t, Compare(t.iv, iv)), iv))
    && (!helper ==> CalmNext(t, iv)) && (!grand ==> !helper && CalmNext(Kid(t, Compare(t.iv, iv)), iv))
  }

  lemma {:induction false} StepDown(fs: seq<Frame>, t: Tree, iv: Interval, all: seq<Interval>, h: int, helper: bool, grand: bool)
    requires Visited(fs, t, iv, all, h, helper, grand) && Sorted(all)
    ensures var d := Compare(t.iv, iv);
      Ready(fs + [Open(t, d)], Kid(t, d), iv, all, if t.red then h else h - 1, helper, grand)
  {
    var d := Compare(t.iv, iv);
    var f, c := Open(t, d), Kid(t, d);
    DescendPlaced(fs, t, iv, all);
    assert (fs + [f])[..|fs|] == fs && (fs + [f])[|fs|] == f;
    JoinLaws(Point(t.iv), Range(t.l), Range(t.r));
    JoinLaws(Join(Point(t.iv), Range(f.sib)), Range(c), Point(iv));
    assert RangeFits(fs + [f], Join(Range(c), Point(iv)));
    assert Fits(fs + [f], if t.red then h else h - 1, IsRed(c));
    if |fs| > 0 { assert (fs + [f])[|fs| - 1] == fs[|fs| - 1]; }
  }

  /** A visit without rotation. */
  lemma {:induction false} VisitCalm(fs: seq<Frame>, t: Tree, iv: Interval, all: seq<Interval>, h: int, helper: bool, grand: bool)
    requires t.Node? && Ready(fs, t, iv, all, h, helper, grand)
    requires !(ParentRed(fs) && Stretch(Flip(t), iv).red)
    ensures Visited(fs, Stretch(Flip(t), iv), iv, all, h, grand, true)
  {
    var r := Stretch(Flip(t), iv);
    FlipFacts(t, iv, h);
    FlipRange(t, iv);
    RangeAgrees(r, t);
  }

  lemma {:induction false} RangeAgrees(r: Tree, t: Tree)
    requires t.Node? && r.Node? && r.iv == t.iv && (BothRed(t) ==> r.l == t.l.(red := false) && r.r == t.r.(red := false))
    requires !BothRed(t) ==> r.l == t.l && r.r == t.r
    ensures Range(r) == Range(t)
  {
  }

  /** A red node below a red parent is a flipped one, and then the variables are in place. */
  lemma {:induction false} MendIsDue(fs: seq<Frame>, t: Tree, iv: Interval, all: seq<Interval>, h: int, helper: bool, grand: bool, v: Vars)
    requires t.Node? && Ready(fs, t, iv, all, h, helper, grand) && Names(fs, v, helper, grand)
    requires ParentRed(fs) && Stretch(Flip(t), iv).red
    ensures BothRed(t) && UncleBlack(fs) && helper && grand
    ensures HelperIs(fs, v) && GrandParentIs(fs, v) && ParentIs(fs, v)
  {
    FlipFacts(t, iv, h);
  }

  /** A visit with a rotation. */
  lemma {:induction false} VisitMend(fs: seq<Frame>, t: Tree, iv: Interval, all: seq<Interval>, h: int, helper: bool, grand: bool)
    requires t.Node? && Ready(fs, t, iv, all, h, helper, grand)
    requires ParentRed(fs) && Stretch(Flip(t), iv).red
    ensures |fs| > 1
    ensures var z := Mend(fs, Stretch(Flip(t), iv));
      var single := fs[|fs| - 1].dir == fs[|fs| - 2].dir;
      && Visited(z.fs, z.t, iv, all, if single then h else h + 1, false, single)
      && Left(Kid(z.t, Compare(z.t.iv, iv)), iv, single) < Left(t, iv, grand)
  {
    var r := Stretch(Flip(t), iv);
    FlipFacts(t, iv, h);
    FlipRange(t, iv);
    RangeAgrees(r, t);
    MendRB(fs, r, h);
    MendPlaced(fs, r, iv, all);
    if fs[|fs| - 1].dir == fs[|fs| - 2].dir {
      MendSingle(fs, r);
      MendRangeSingle(fs, r, iv);
    } else {
      MendDouble(fs, r);
      MendRangeDouble(fs, r, iv);
      CalmBelow(fs, r, iv);
    }
  }

  /** After a double rotation the path leads back to a child of the node that was flipped. */
  lemma {:induction false} CalmBelow(fs: seq<Frame>, r: Tree, iv: Interval)
    requires |fs| > 1 && r.Node? && fs[|fs| - 1].dir != fs[|fs| - 2].dir && Calm(r.l) && Calm(r.r)
    requires Compare(fs[|fs| - 1].iv, iv) == fs[|fs| - 1].dir && Compare(fs[|fs| - 2].iv, iv) == fs[|fs| - 2].dir
    ensures var q := Mend(fs, r).t;
      && q.Node? && CalmNext(Kid(q, Compare(q.iv, iv)), iv)
      && Left(Kid(q, Compare(q.iv, iv)), iv, false) < |Flat(r)|
  {
    MendDouble(fs, r);
    assert |Flat(r)| == |Flat(r.l)| + 1 + |Flat(r.r)|;
  }

  /** How far the search may still go: after a double rotation it first comes back to where it was. */
  ghost function Left(t: Tree, iv: Interval, grand: bool): (n: nat) {
    if grand || t.Nil? then |Flat(t)| else |Flat(Kid(t, Compare(t.iv, iv)))| + 1
  }

  // ------------------------------------------------------- the inserted node

  /** What remains to be shown of a path and node: all but the order. */
  ghost predicate Sound(fs: seq<Frame>, t: Tree, h: int, iv: Interval) {
    RB(t, h) && Fits(fs, h, IsRed(t)) && Stretched(t, iv) && iv in Flat(t) && RangeFits(fs, Stored(t))
  }

  function NewNode(iv: Interval): (n: Tree) { Node(iv, iv.low, iv.high, true, Nil, Nil) }

  lemma {:induction false} InsertCalm(fs: seq<Frame>, iv: Interval, all: seq<Interval>, h: int, helper: bool, grand: bool)
    requires Ready(fs, Nil, iv, all, h, helper, grand) && !ParentRed(fs)
    ensures Sound(fs, NewNode(iv), 0, iv)
    ensures Before(fs) + Flat(NewNode(iv)) + After(fs) == Before(fs) + [iv] + After(fs)
  {
    NewStretched(iv);
    JoinLaws(Point(iv), Empty, Empty);
  }

  lemma {:induction false} NewStretched(iv: Interval)
    ensures Stretched(NewNode(iv), iv) && Flat(NewNode(iv)) == [iv] && Stored(NewNode(iv)) == Point(iv) && RB(NewNode(iv), 0)
  {
    assert Flat(Nil) == [];
    assert Range(NewNode(iv)) == Point(iv);
  }

  lemma {:induction false} InsertMend(fs: seq<Frame>, iv: Interval, all: seq<Interval>, h: int, helper: bool, grand: bool)
    requires Ready(fs, Nil, iv, all, h, helper, grand) && ParentRed(fs)
    ensures |fs| > 1 && helper && grand
    ensures var z := Mend(fs, NewNode(iv));
      && Sound(z.fs, z.t, if fs[|fs| - 1].dir == fs[|fs| - 2].dir then 0 else 1, iv)
      && Before(z.fs) + Flat(z.t) + After(z.fs) == Before(fs) + [iv] + After(fs)
  {
    NewStretched(iv);
    MendRB(fs, NewNode(iv), 0);
    MendFlat(fs, NewNode(iv));
    NewMended(fs, NewNode(iv), iv);
  }

  lemma {:induction false} NewMended(fs: seq<Frame>, n: Tree, iv: Interval)
    requires |fs| > 1 && Stretched(n, iv) && n.iv == iv && RangeFits(fs, Stored(n))
    ensures var z := Mend(fs, n); Stretched(z.t, iv) && iv in Flat(z.t) && RangeFits(z.fs, Stored(z.t))
  {
    var z := Mend(fs, n);
    if fs[|fs| - 1].dir == fs[|fs| - 2].dir {
      MendRangeSingle(fs, n, iv);
    } else {
      MendDouble(fs, n);
      MendRangeDouble(fs, n, iv);
    }
    RootIn(z.t);
  }

  lemma {:induction false} RootIn(t: Tree)
    requires t.Node?
    ensures t.iv in Flat(t)
  {
    assert Flat(t)[|Flat(t.l)|] == t.iv;
  }

  /** A well-formed tree. */
  ghost predicate Good(t: Tree) {
    Sorted(Flat(t)) && Exact(t) && !IsRed(t) && exists h :: RB(t, h)
  }

  /** Putting the tree together again and blackening its root. */
  lemma {:induction false} Finish(fs: seq<Frame>, t: Tree, h: int, iv: Interval)
    requires Sound(fs, t, h, iv) && Sorted(Before(fs) + Flat(t) + After(fs))
    ensures Good(Blackened(Plug(fs, t)))
    ensures Flat(Blackened(Plug(fs, t))) == Before(fs) + Flat(t) + After(fs)
  {
    RangeHas(t, iv);
    PlugExact(fs, t);
    PlugFlat(fs, t);
    var h1 := PlugRB(fs, t, h);
    var h2 := BlackenRB(Plug(fs, t), h1);
  }

  /** iv in its place keeps the order, if its id is new. */
  lemma {:induction false} InsertSorted(a: seq<Interval>, b: seq<Interval>, iv: Interval)
    requires Sorted(a + b) && AllBelow(a, iv) && NoneBelow(b, iv) && NewId(b, iv)
    ensures Sorted(a + [iv] + b) && multiset(a + [iv] + b) == multiset(a + b) + multiset{iv}
  {
    var s, n := a + [iv] + b, |a|;
    forall i, j | 0 <= i < j < |s| ensures Less(s[i], s[j]) {
      var i' := if i > n then i - 1 else i;
      var j' := if j > n then j - 1 else j;
      assert i != n ==> s[i] == (a + b)[i'];
      assert j != n ==> s[j] == (a + b)[j'];
    }
  }

  lemma {:induction false} VisitCalmLeft(fs: seq<Frame>, t: Tree, iv: Interval, all: seq<Interval>, h: int, helper: bool, grand: bool)
    requires t.Node? && Ready(fs, t, iv, all, h, helper, grand)
    ensures Left(Kid(Stretch(Flip(t), iv), Compare(t.iv, iv)), iv, true) < Left(t, iv, grand)
  {
    FlipFacts(t, iv, h);
    var r := Stretch(Flip(t), iv);
    assert |Flat(r)| == |Flat(r.l)| + 1 + |Flat(r.r)|;
  }

  lemma {:induction false} NamesMended(fs: seq<Frame>, v: Vars, t: Tree, iv: Interval)
    requires |fs| > 1 && t.Node? && Names(fs, v, true, true)
    ensures var z := Mend(fs, t);
      && z.t.Node?
      && var f := Open(z.t, Compare(z.t.iv, iv));
      Names(z.fs + [f], Move(v, z.t.iv.id, f.dir), false, v.dir == v.last)
  {
    var z := Mend(fs, t);
    if v.dir == v.last {
      MendSingle(fs, t);
      assert z.fs[|fs| - 2] == z.fs[|z.fs| - 1];
      NamesSingle(fs, v, z.fs, Open(z.t, Compare(z.t.iv, iv)));
    } else {
      MendDouble(fs, t);
      NamesDouble(fs, v, z.fs, Open(z.t, Compare(z.t.iv, iv)));
    }
  }

  /** One round of add's loop at a node that is there. */
  method Visit(fs: seq<Frame>, t: Tree, v: Vars, iv: Interval, ghost all: seq<Interval>, ghost h: int, ghost helper: bool, ghost grand: bool)
    returns (fs': seq<Frame>, t': Tree, v': Vars, ghost h': int, ghost helper': bool, ghost grand': bool)
    requires t.Node? && Sorted(all) && Ready(fs, t, iv, all, h, helper, grand) && Names(fs, v, helper, grand)
    ensures Ready(fs', t', iv, all, h', helper', grand') && Names(fs', v', helper', grand')
    ensures Left(t', iv, grand') < Left(t, iv, grand)
  {
    var z := Zip(fs, Stretch(Flip(t), iv));
    h', helper', grand' := h, grand, true;
    if v.parent.Some? && fs[|fs| - 1].red && IsRed(z.t) {
      MendIsDue(fs, t, iv, all, h, helper, grand, v);
      VisitMend(fs, t, iv, all, h, helper, grand);
      // node == parent.children[last]: rotate, else doubleRotate
      helper', grand' := false, v.dir == v.last;
      h' := if grand' then h else h + 1;
      z := Mend(fs, z.t);
      NamesMended(fs, v, Stretch(Flip(t), iv), iv);
    } else {
      VisitCalm(fs, t, iv, all, h, helper, grand);
      VisitCalmLeft(fs, t, iv, all, h, helper, grand);
      NamesMove(fs, v, helper, grand, Open(z.t, Compare(z.t.iv, iv)));
    }
    var d := Compare(z.t.iv, iv);
    StepDown(z.fs, z.t, iv, all, h', helper', grand');
    h' := if z.t.red then h' else h' - 1;
    fs', t', v' := z.fs + [Open(z.t, d)], Kid(z.t, d), Move(v, z.t.iv.id, d);
  }

  lemma {:induction false} FirstReady(root: Tree, iv: Interval, h: int)
    requires Good(root) && RB(root, h)
    ensures Ready([], root, iv, Flat(root), h, true, true)
  {
  }

  ghost predicate NewId(s: seq<Interval>, iv: Interval) {
    forall i :: 0 <= i < |s| ==> s[i].id != iv.id
  }

  /** The loop of add: the interval is in, all rules hold, and all ranges are exact. */
  method Insert(root: Tree, iv: Interval) returns (r: Tree)
    requires Good(root) && NewId(Flat(root), iv)
    ensures Good(r) && multiset(Flat(r)) == multiset(Flat(root)) + multiset{iv}
  {
    ghost var all := Flat(root);
    ghost var h: int :| RB(root, h);
    var fs: seq<Frame>, t := [], root;
    var v := Vars(None, None, None, 0, 0);
    ghost var helper, grand := true, true;
    FirstReady(root, iv, h);
    while t.Node?
      invariant Ready(fs, t, iv, all, h, helper, grand) && Names(fs, v, helper, grand)
      decreases Left(t, iv, grand)
    {
      fs, t, v, h, helper, grand := Visit(fs, t, v, iv, all, h, helper, grand);
    }
    r := PutIn(fs, v, iv, all, h, helper, grand);
  }

  lemma {:induction false} InPlace(fs: seq<Frame>, iv: Interval, all: seq<Interval>)
    requires Placed(fs, Nil, iv, all) && Sorted(all) && NewId(all, iv)
    ensures Sorted(Before(fs) + [iv] + After(fs))
    ensures multiset(Before(fs) + [iv] + After(fs)) == multiset(all) + multiset{iv}
  {
    var a, b := Before(fs), After(fs);
    AtNil(fs, iv, all);
    forall i | 0 <= i < |b| ensures b[i].id != iv.id { assert b[i] == all[|a| + i]; }
    InsertSorted(a, b, iv);
  }

  /** The last round of add's loop, at the new node. */
  method PutIn(fs: seq<Frame>, v: Vars, iv: Interval, ghost all: seq<Interval>, ghost h: int, ghost helper: bool, ghost grand: bool) returns (r: Tree)
    requires Ready(fs, Nil, iv, all, h, helper, grand) && Names(fs, v, helper, grand) && Sorted(all) && NewId(all, iv)
    ensures Good(r) && multiset(Flat(r)) == multiset(all) + multiset{iv}
  {
    InPlace(fs, iv, all);
    var z := Zip(fs, NewNode(iv));
    ghost var h1 := 0;
    if v.parent.Some? && fs[|fs| - 1].red {
      InsertMend(fs, iv, all, h, helper, grand);
      assert HelperIs(fs, v) && GrandParentIs(fs, v);
      h1 := if v.dir == v.last then 0 else 1;
      z := Mend(fs, z.t);
    } else {
      InsertCalm(fs, iv, all, h, helper, grand);
    }
    r := Close(z.fs, z.t, iv, h1);
  }

  /** The path is put together again, and the root is black. */
  method Close(fs: seq<Frame>, t: Tree, ghost iv: Interval, ghost h: int) returns (r: Tree)
    requires Sound(fs, t, h, iv) && Sorted(Before(fs) + Flat(t) + After(fs))
    ensures Good(r) && Flat(r) == Before(fs) + Flat(t) + After(fs)
  {
    Finish(fs, t, h, iv);
    r := Blackened(Plug(fs, t));
  }

  // ---------------------------------------------------------------- deletion

  function Paint(t: Tree, red: bool): (r: Tree) {
    if t.Nil? then Nil else t.(red := red)
  }

  /** The tops of the rotations of delete: red, with black children. */
  function Repaint(t: Tree): (r: Tree)
    requires t.Node?
    ensures r.Node?
  {
    t.(red := true, l := Paint(t.l, false), r := Paint(t.r, false))
  }

  /** Which rotation of the parent brings the black sibling's red child up. */
  function Lift(p: Frame, t: Tree): (r: Tree)
    requires p.sib.Node? && (IsRed(p.sib.l) || IsRed(p.sib.r))
    ensures r.Node?
  {
    var tree := Fill(p, t);
    Repaint(if IsRed(Kid(p.sib, p.dir)) then DoubleRotate(tree, p.dir) else Rotate(tree, p.dir))
  }

  /** The parent comes to lie between the top and the node. */
  lemma {:induction false} LiftShape(p: Frame, t: Tree)
    requires p.sib.Node? && (IsRed(p.sib.l) || IsRed(p.sib.r))
    ensures var top := Lift(p, t);
      && top.red && Kid(top, p.dir).Node? && !Kid(top, p.dir).red && !IsRed(Kid(top, 1 - p.dir)) && Kid(top, 1 - p.dir).Node?
      && Kid(top, p.dir).iv == p.iv && Kid(Kid(top, p.dir), p.dir) == t
      && Flat(top) == Flat(Fill(p, t))
  {
    var tree := Fill(p, t);
    var top := Lift(p, t);
    if IsRed(Kid(p.sib, p.dir)) {
      DoubleRotateFlat(tree, p.dir);
      PaintFlat(DoubleRotate(tree, p.dir));
    } else {
      RotateFlat(tree, p.dir);
      PaintFlat(Rotate(tree, p.dir));
    }
  }

  lemma {:induction false} PaintFlat(t: Tree)
    requires t.Node?
    ensures Flat(Repaint(t)) == Flat(t)
  {
    assert Flat(Paint(t.l, false)) == Flat(t.l) && Flat(Paint(t.r, false)) == Flat(t.r);
  }

  /** Heights and colours of the lifted tree. */
  lemma {:induction false} LiftRB(p: Frame, t: Tree, h: int)
    requires p.sib.Node? && !p.sib.red && (IsRed(p.sib.l) || IsRed(p.sib.r)) && RB(p.sib, h) && RB(t, h - 1)
    ensures var top := Lift(p, t);
      RB(Kid(top, 1 - p.dir), h) && Kid(top, p.dir).Node? && RB(Kid(Kid(top, p.dir), 1 - p.dir), h - 1)
  {
    LiftShape(p, t);
  }

  /** At the head of delete's loop. */
  ghost predicate Heading(fs: seq<Frame>, t: Tree, iv: Interval, all: seq<Interval>, h: int) {
    && Placed(fs, t, iv, all) && RB(t, h) && Fits(fs, h, IsRed(t))
    && (|fs| > 0 ==> fs[|fs| - 1].red || IsRed(t) || (|fs| == 1 && !IsRed(fs[|fs| - 1].sib)))
  }

  /** Before the step down: the node or the next one is red, or the node is a root without a red child. */
  ghost predicate Pushed(fs: seq<Frame>, t: Tree, iv: Interval, all: seq<Interval>, h: int) {
    && Placed(fs, t, iv, all) && RB(t, h) && Fits(fs, h, IsRed(t)) && t.Node?
    && (t.red || IsRed(Kid(t, Compare(t.iv, iv))) || (fs == [] && !IsRed(t.l) && !IsRed(t.r)))
  }

  lemma {:induction false} PushDown(fs: seq<Frame>, t: Tree, iv: Interval, all: seq<Interval>, h: int)
    requires Pushed(fs, t, iv, all, h) && Sorted(all)
    ensures var d := Compare(t.iv, iv); Heading(fs + [Open(t, d)], Kid(t, d), iv, all, if t.red then h else h - 1)
  {
    var d := Compare(t.iv, iv);
    var f := Open(t, d);
    DescendPlaced(fs, t, iv, all);
    assert (fs + [f])[..|fs|] == fs && (fs + [f])[|fs|] == f;
    assert Fits(fs + [f], if t.red then h else h - 1, IsRed(Kid(t, d)));
  }

  lemma {:induction false} PushRotateRB(t: Tree, d: Side, h: int)
    requires t.Node? && RB(t, h) && !t.red && !IsRed(Kid(t, d)) && IsRed(Kid(t, 1 - d))
    ensures var top, c := Rotate(t, d), Kid(t, 1 - d);
      && top.iv == c.iv && !top.red && Kid(top, d).Node? && Kid(top, d).red && Kid(top, d).iv == t.iv
      && Kid(Kid(top, d), d) == Kid(t, d) && Kid(Kid(top, d), 1 - d) == Kid(c, d) && Kid(top, 1 - d) == Kid(c, 1 - d)
      && RB(Kid(top, d), h - 1) && RB(Kid(top, 1 - d), h - 1)
  {
    var c := Kid(t, 1 - d);
    assert RB(c, h - 1);
    assert RB(c.l, h - 1) && RB(c.r, h - 1) && !IsRed(c.l) && !IsRed(c.r);
  }

  lemma {:induction false} PushRotatePlaced(fs: seq<Frame>, t: Tree, iv: Interval, all: seq<Interval>, d: Side)
    requires t.Node? && Placed(fs, t, iv, all) && Sorted(all) && d == Compare(t.iv, iv) && Kid(t, 1 - d).Node?
    ensures var top := Rotate(t, d); Placed(fs + [Open(top, d)], Kid(top, d), iv, all)
  {
    var c, top := Kid(t, 1 - d), Rotate(t, d);
    var f := Open(top, d);
    RotateFlat(t, d);
    BeforeMore(fs, f);
    SplitSorted(all, Before(fs), Flat(t.l), t.iv, Flat(t.r), After(fs), iv);
    OpenFlat(fs, top, d);
    if d == 1 {
      assert Flat(t.l) + [t.iv] == (Flat(c.l) + [c.iv]) + (Flat(c.r) + [t.iv]);
      BothBelow(Flat(c.l) + [c.iv], Flat(c.r) + [t.iv], iv);
      BothBelow(Before(fs), Flat(c.l) + [c.iv], iv);
    } else {
      assert [t.iv] + Flat(t.r) == ([t.iv] + Flat(c.l)) + ([c.iv] + Flat(c.r));
      BothBelow([t.iv] + Flat(c.l), [c.iv] + Flat(c.r), iv);
      BothBelow([c.iv] + Flat(c.r), After(fs), iv);
    }
  }

  lemma {:induction false} FitsMore(fs: seq<Frame>, f: Frame, h: int, red: bool)
    ensures Fits(fs + [f], h, red) <==>
      (f.red ==> !red && !IsRed(f.sib)) && RB(f.sib, h) && Fits(fs, if f.red then h else h + 1, f.red)
  {
    assert (fs + [f])[..|fs|] == fs && (fs + [f])[|fs|] == f;
  }

  /** The node's other child is red: it goes up, and the node becomes red. */
  lemma {:induction false} PushRotate(fs: seq<Frame>, t: Tree, iv: Interval, all: seq<Interval>, h: int, d: Side)
    requires t.Node? && Heading(fs, t, iv, all, h) && Sorted(all) && d == Compare(t.iv, iv)
    requires !t.red && !IsRed(Kid(t, d)) && IsRed(Kid(t, 1 - d))
    ensures var top := Rotate(t, d);
      && Pushed(fs + [Open(top, d)], Kid(top, d), iv, all, h - 1)
      && Kid(top, d).iv == t.iv && Kid(Kid(top, d), d) == Kid(t, d) && top.iv == Kid(t, 1 - d).iv
  {
    PushRotateRB(t, d, h);
    PushRotatePlaced(fs, t, iv, all, d);
    FitsMore(fs, Open(Rotate(t, d), d), h - 1, true);
  }

  /** The node, its black sibling and its parent exchange colours. */
  lemma {:induction false} PushPaint(fs: seq<Frame>, p: Frame, t: Tree, iv: Interval, all: seq<Interval>, h: int)
    requires t.Node? && Heading(fs + [p], t, iv, all, h) && !t.red && !IsRed(t.l) && !IsRed(t.r)
    requires p.sib.Node? && !IsRed(p.sib.l) && !IsRed(p.sib.r)
    ensures Pushed(fs + [p.(red := false, sib := Paint(p.sib, true))], Paint(t, true), iv, all, h - 1)
  {
    var p', t' := p.(red := false, sib := Paint(p.sib, true)), Paint(t, true);
    assert (fs + [p])[|fs|] == p;
    FitsMore(fs, p, h, false);
    assert !p.sib.red;
    assert Fits(fs, h, false) by {
      if p.red { FitsBlack(fs, h, true); }
    }
    FitsMore(fs, p', h - 1, true);
    BeforeMore(fs, p);
    BeforeMore(fs, p');
    assert Flat(p'.sib) == Flat(p.sib) && Flat(t') == Flat(t);
  }

  /** top is the lifted tree, and k in it the parent of the node t. */
  ghost predicate Lifted(p: Frame, t: Tree, top: Tree, k: Tree, h: int) {
    && top.Node? && top.red && k.Node? && k == Kid(top, p.dir) && !k.red && k.iv == p.iv && Kid(k, p.dir) == t
    && !IsRed(Kid(top, 1 - p.dir)) && RB(Kid(top, 1 - p.dir), h) && RB(Kid(k, 1 - p.dir), h - 1)
    && Flat(top) == Flat(Fill(p, t))
  }

  lemma {:induction false} LiftIsLifted(p: Frame, t: Tree, h: int)
    requires p.sib.Node? && !p.sib.red && (IsRed(p.sib.l) || IsRed(p.sib.r)) && RB(p.sib, h) && RB(t, h - 1)
    ensures Lifted(p, t, Lift(p, t), Kid(Lift(p, t), p.dir), h)
  {
    LiftShape(p, t);
    LiftRB(p, t, h);
  }

  /** Two ways to write what comes after, or before, the same stretch. */
  lemma {:induction false} SidesAfter(t: seq<Interval>, k: seq<Interval>, x: seq<Interval>, p: seq<Interval>)
    requires (t + k) + x == t + p
    ensures p == k + x
  {
    Assoc(t, k, x);
    SameTail(t, k + x, p);
  }

  lemma {:induction false} SidesBefore(t: seq<Interval>, k: seq<Interval>, x: seq<Interval>, p: seq<Interval>)
    requires x + (k + t) == p + t
    ensures p == x + k
  {
    Assoc(x, k, t);
    SameHead(x + k, p, t);
  }

  /** What is beside the node stays beside it. */
  lemma {:induction false} LiftSides(p: Frame, t: Tree, top: Tree, k: Tree, h: int)
    requires Lifted(p, t, top, k, h)
    ensures BeforeIn(p) == BeforeIn(Open(top, p.dir)) + BeforeIn(Open(k, p.dir))
    ensures AfterIn(p) == AfterIn(Open(k, p.dir)) + AfterIn(Open(top, p.dir))
  {
    var f1, f2 := Open(top, p.dir), Open(k, p.dir);
    FillFlat(p, t);
    FillFlat(f1, k);
    FillFlat(f2, t);
    if p.dir == 0 {
      SidesAfter(Flat(t), AfterIn(f2), AfterIn(f1), AfterIn(p)) by {
        NoneBefore(Flat(t), AfterIn(f2));
        NoneBefore(Flat(k), AfterIn(f1));
        NoneBefore(Flat(t), AfterIn(p));
      }
    } else {
      SidesBefore(Flat(t), BeforeIn(f2), BeforeIn(f1), BeforeIn(p)) by {
        NoneAfter(BeforeIn(f2), Flat(t));
        NoneAfter(BeforeIn(f1), Flat(k));
        NoneAfter(BeforeIn(p), Flat(t));
      }
    }
  }

  lemma {:induction false} NoneBefore(t: seq<Interval>, a: seq<Interval>)
    ensures [] + t + a == t + a
  {
  }

  lemma {:induction false} NoneAfter(b: seq<Interval>, t: seq<Interval>)
    ensures b + t + [] == b + t
  {
  }

  lemma {:induction false} LiftPlaced(fs: seq<Frame>, p: Frame, t: Tree, top: Tree, k: Tree, h: int, f1: Frame, f2: Frame)
    requires Lifted(p, t, top, k, h) && f1 == Open(top, p.dir) && f2 == Open(k, p.dir)
    ensures Before(fs + [f1] + [f2]) == Before(fs + [p]) && After(fs + [f1] + [f2]) == After(fs + [p])
  {
    LiftSides(p, t, top, k, h);
    BeforeMore(fs, p);
    BeforeMore(fs, f1);
    BeforeMore(fs + [f1], f2);
    Assoc(Before(fs), BeforeIn(f1), BeforeIn(f2));
    Assoc(AfterIn(f2), AfterIn(f1), After(fs));
  }

  lemma {:induction false} Assoc(a: seq<Interval>, b: seq<Interval>, c: seq<Interval>)
    ensures (a + b) + c == a + (b + c)
  {
  }

  lemma {:induction false} LiftFits(fs: seq<Frame>, p: Frame, t: Tree, top: Tree, k: Tree, h: int, f1: Frame, f2: Frame)
    requires Lifted(p, t, top, k, h) && f1 == Open(top, p.dir) && f2 == Open(k, p.dir)
    requires Fits(fs + [p], h, false) && (p.red || fs == [])
    ensures Fits(fs + [f1] + [f2], h - 1, true)
  {
    FitsMore(fs, p, h, false);
    FitsMore(fs, f1, h, false);
    FitsMore(fs + [f1], f2, h - 1, true);
  }

  lemma {:induction false} PlacedSame(fs: seq<Frame>, t: Tree, fs': seq<Frame>, t': Tree, iv: Interval, all: seq<Interval>)
    requires Placed(fs, t, iv, all) && Before(fs') == Before(fs) && After(fs') == After(fs) && Flat(t') == Flat(t)
    ensures Placed(fs', t', iv, all)
  {
  }

  lemma {:induction false} Reddened(t: Tree, h: int)
    requires t.Node? && RB(t, h) && !t.red && !IsRed(t.l) && !IsRed(t.r)
    ensures RB(t.(red := true), h - 1) && Flat(t.(red := true)) == Flat(t)
  {
  }

  /** A red child of the black sibling comes up. */
  lemma {:induction false} PushLift(fs: seq<Frame>, p: Frame, t: Tree, iv: Interval, all: seq<Interval>, h: int,
                                    t': Tree, top: Tree, k: Tree, f1: Frame, f2: Frame)
    requires t.Node? && Heading(fs + [p], t, iv, all, h) && !t.red && !IsRed(t.l) && !IsRed(t.r) && t' == t.(red := true)
    requires Lifted(p, t', top, k, h) && f1 == Open(top, p.dir) && f2 == Open(k, p.dir)
    ensures Pushed(fs + [f1] + [f2], t', iv, all, h - 1)
  {
    assert (fs + [p])[|fs|] == p;
    LiftFits(fs, p, t', top, k, h, f1, f2);
    LiftPlaced(fs, p, t', top, k, h, f1, f2);
    Reddened(t, h);
    PlacedSame(fs + [p], t, fs + [f1] + [f2], t', iv, all);
  }

  /** When the sibling is looked at, it is black and there. */
  lemma {:induction false} SiblingBlack(fs: seq<Frame>, p: Frame, t: Tree, iv: Interval, all: seq<Interval>, h: int)
    requires t.Node? && Heading(fs + [p], t, iv, all, h) && !t.red
    ensures p.sib.Node? && !p.sib.red && RB(p.sib, h) && (!IsRed(t.l) && !IsRed(t.r) ==> RB(t.(red := true), h - 1))
  {
    assert (fs + [p])[|fs|] == p;
    FitsMore(fs, p, h, false);
    RBPositive(t, h);
  }

  lemma {:induction false} SameTail(a: seq<Interval>, b: seq<Interval>, c: seq<Interval>)
    requires a + b == a + c
    ensures b == c
  {
    assert (a + b)[|a|..] == b && (a + c)[|a|..] == c;
  }

  lemma {:induction false} SameHead(b: seq<Interval>, c: seq<Interval>, a: seq<Interval>)
    requires b + a == c + a
    ensures b == c
  {
    assert |b| == |c|;
    assert (b + a)[..|b|] == b && (c + a)[..|b|] == c;
  }

  // ------------------------------------------------------- the deletion loop

  /** An interval with iv's id is iv. */
  ghost predicate SameId(s: seq<Interval>, iv: Interval) {
    forall i :: 0 <= i < |s| && s[i].id == iv.id ==> s[i] == iv
  }

  ghost predicate HasId(fs: seq<Frame>, id: nat) {
    exists j :: 0 <= j < |fs| && fs[j].iv.id == id
  }

  lemma {:induction false} HasIdMore(fs: seq<Frame>, f: Frame, id: nat)
    ensures HasId(fs + [f], id) <==> HasId(fs, id) || f.iv.id == id
  {
    if HasId(fs, id) {
      var j :| 0 <= j < |fs| && fs[j].iv.id == id;
      assert (fs + [f])[j] == fs[j];
    }
    if f.iv.id == id { assert (fs + [f])[|fs|] == f; }
  }

  /** A node that a rotation puts on the path is not the one to delete. */
  lemma {:induction false} NotTop(a: seq<Interval>, top: Tree, c: seq<Interval>, d: Side, iv: Interval)
    requires Sorted(a + Flat(top) + c) && SameId(a + Flat(top) + c, iv) && top.Node? && Kid(top, d).Node?
    requires Compare(Kid(top, d).iv, iv) == d && Compare(top.iv, iv) == d
    ensures top.iv.id != iv.id
  {
    var all, n := a + Flat(top) + c, |a| + |Flat(top.l)|;
    assert all[n] == top.iv;
    if d == 0 {
      var m := |a| + |Flat(top.l.l)|;
      assert all[m] == top.l.iv;
    }
  }

  /** A round of delete's loop before the step down: it makes the node or the next one red. */
  method Push(fs: seq<Frame>, t: Tree, iv: Interval, ghost all: seq<Interval>, ghost h: int)
    returns (fs': seq<Frame>, t': Tree, ghost h': int)
    requires t.Node? && Heading(fs, t, iv, all, h) && Sorted(all) && SameId(all, iv)
    ensures Pushed(fs', t', iv, all, h') && t'.iv == t.iv && Kid(t', Compare(t.iv, iv)) == Kid(t, Compare(t.iv, iv))
    ensures HasId(fs', iv.id) <==> HasId(fs, iv.id)
  {
    var d := Compare(t.iv, iv);
    fs', t', h' := fs, t, h;
    if !t.red && !IsRed(Kid(t, d)) {
      if IsRed(Kid(t, 1 - d)) {
        PushRotate(fs, t, iv, all, h, d);
        var top := Rotate(t, d);
        RotateOff(fs, t, iv, all, d);
        HasIdMore(fs, Open(top, d), iv.id);
        fs', t', h' := fs + [Open(top, d)], Kid(top, d), h - 1;
      } else if fs != [] {
        var p, front := fs[|fs| - 1], fs[..|fs| - 1];
        assert fs == front + [p];
        SiblingBlack(front, p, t, iv, all, h);
        fs', t' := PushSibling(front, p, t, iv, all, h);
        h' := h - 1;
      }
    }
  }

  lemma {:induction false} RotateOff(fs: seq<Frame>, t: Tree, iv: Interval, all: seq<Interval>, d: Side)
    requires t.Node? && Placed(fs, t, iv, all) && Sorted(all) && SameId(all, iv) && d == Compare(t.iv, iv) && Kid(t, 1 - d).Node?
    ensures Rotate(t, d).iv.id != iv.id
  {
    var top := Rotate(t, d);
    PushRotatePlaced(fs, t, iv, all, d);
    assert (fs + [Open(top, d)])[|fs|] == Open(top, d);
    LastDir(fs + [Open(top, d)], iv);
    RotateFlat(t, d);
    NotTop(Before(fs), top, After(fs), d, iv);
  }

  lemma {:induction false} LiftOff(fs: seq<Frame>, p: Frame, t: Tree, iv: Interval, all: seq<Interval>, top: Tree, k: Tree, h: int)
    requires Placed(fs + [p], t, iv, all) && Sorted(all) && SameId(all, iv) && Lifted(p, t, top, k, h)
    ensures top.iv.id != iv.id
  {
    var f1, f2 := Open(top, p.dir), Open(k, p.dir);
    LiftPlaced(fs, p, t, top, k, h, f1, f2);
    var gs := fs + [f1] + [f2];
    assert gs[..|gs| - 1] == fs + [f1] && (fs + [f1])[|fs|] == f1 && gs[|gs| - 1] == f2;
    LastDir(gs, iv);
    LastDir(fs + [f1], iv);
    OpenFlat(fs, Fill(p, t), p.dir);
    assert Open(Fill(p, t), p.dir) == p;
    NotTop(Before(fs), top, After(fs), p.dir, iv);
  }

  /** The rounds that look at the sibling. */
  method PushSibling(fs: seq<Frame>, p: Frame, t: Tree, iv: Interval, ghost all: seq<Interval>, ghost h: int)
    returns (fs': seq<Frame>, t': Tree)
    requires t.Node? && Heading(fs + [p], t, iv, all, h) && Sorted(all) && SameId(all, iv)
    requires !t.red && !IsRed(t.l) && !IsRed(t.r) && p.sib.Node? && !p.sib.red && RB(p.sib, h) && RB(t.(red := true), h - 1)
    ensures Pushed(fs', t', iv, all, h - 1) && t' == t.(red := true)
    ensures HasId(fs', iv.id) <==> HasId(fs + [p], iv.id)
  {
    t' := t.(red := true);
    HasIdMore(fs, p, iv.id);
    if !IsRed(p.sib.l) && !IsRed(p.sib.r) {
      PushPaint(fs, p, t, iv, all, h);
      fs' := fs + [p.(red := false, sib := Paint(p.sib, true))];
      HasIdMore(fs, p.(red := false, sib := Paint(p.sib, true)), iv.id);
    } else {
      LiftIsLifted(p, t', h);
      var top := Lift(p, t');
      var k := Kid(top, p.dir);
      PushLift(fs, p, t, iv, all, h, t', top, k, Open(top, p.dir), Open(k, p.dir));
      assert Flat(t') == Flat(t);
      LiftOff(fs, p, t', iv, all, top, k, h);
      HasIdMore(fs, Open(top, p.dir), iv.id);
      HasIdMore(fs + [Open(top, p.dir)], Open(k, p.dir), iv.id);
      fs' := fs + [Open(top, p.dir)] + [Open(k, p.dir)];
    }
  }

  // ----------------------------------------------------- taking out the node

  /** The node with that id gets the interval, min and max of the node that goes. */
  function Renamed(fs: seq<Frame>, id: nat, n: Frame): (r: seq<Frame>)
    decreases |fs|
  {
    if fs == [] then []
    else
      var f, front := fs[|fs| - 1], fs[..|fs| - 1];
      if f.iv.id == id then front + [f.(iv := n.iv, min := n.min, max := n.max)] else Renamed(front, id, n) + [f]
  }

  lemma {:induction false} RenamedFits(fs: seq<Frame>, id: nat, n: Frame, h: int, red: bool)
    requires Fits(fs, h, red)
    ensures Fits(Renamed(fs, id, n), h, red)
    decreases |fs|
  {
    if fs != [] {
      var f, front := fs[|fs| - 1], fs[..|fs| - 1];
      if f.iv.id == id {
        FitsMore(front, f.(iv := n.iv, min := n.min, max := n.max), h, red);
      } else {
        RenamedFits(front, id, n, if f.red then h else h + 1, f.red);
        FitsMore(Renamed(front, id, n), f, h, red);
      }
    }
  }

  lemma {:induction false} FirstRest(x: Interval, s: seq<Interval>, rest: seq<Interval>)
    ensures (([x] + s) + rest)[0] == x && (([x] + s) + rest)[1..] == s + rest
  {
  }

  lemma {:induction false} SameIdPart(a: seq<Interval>, b: seq<Interval>, iv: Interval)
    requires SameId(a + b, iv)
    ensures SameId(a, iv) && SameId(b, iv)
  {
    forall i | 0 <= i < |a| && a[i].id == iv.id ensures a[i] == iv { assert (a + b)[i] == a[i]; }
    forall i | 0 <= i < |b| && b[i].id == iv.id ensures b[i] == iv { assert (a + b)[|a| + i] == b[i]; }
  }

  /** A frame before whose hole its node comes is not iv's. */
  lemma {:induction false} RightNotIt(f: Frame, iv: Interval)
    requires f.dir == 1 && AllBelow(BeforeIn(f), iv) && SameId(BeforeIn(f), iv)
    ensures f.iv.id != iv.id
  {
    var b := BeforeIn(f);
    assert b[|b| - 1] == f.iv;
  }

  /** The interval just after the hole is exchanged for another. */
  lemma {:induction false} RenamedFlat(fs: seq<Frame>, iv: Interval, n: Frame)
    requires |After(fs)| > 0 && After(fs)[0] == iv && AllBelow(Before(fs), iv) && SameId(Before(fs), iv)
    ensures Before(Renamed(fs, iv.id, n)) == Before(fs) && After(Renamed(fs, iv.id, n)) == [n.iv] + After(fs)[1..]
    decreases |fs|
  {
    var f, front := fs[|fs| - 1], fs[..|fs| - 1];
    assert After(fs) == AfterIn(f) + After(front);
    if f.dir == 0 {
      FirstRest(f.iv, Flat(f.sib), After(front));
      RenameLast(front, f, n);
    } else {
      assert After(fs) == After(front);
      BothBelow(Before(front), BeforeIn(f), iv);
      SameIdPart(Before(front), BeforeIn(f), iv);
      RightNotIt(f, iv);
      RenamedFlat(front, iv, n);
      var r := Renamed(front, iv.id, n);
      BeforeMore(r, f);
      assert After(r + [f]) == After(r);
    }
  }

  lemma {:induction false} RenameLast(front: seq<Frame>, f: Frame, n: Frame)
    requires f.dir == 0
    ensures var f' := f.(iv := n.iv, min := n.min, max := n.max);
      Before(front + [f']) == Before(front) + BeforeIn(f) && After(front + [f']) == [n.iv] + (Flat(f.sib) + After(front))
  {
    var f' := f.(iv := n.iv, min := n.min, max := n.max);
    BeforeMore(front, f');
    Assoc([n.iv], Flat(f.sib), After(front));
  }

  /** If iv is in the tree, it comes right after the hole. */
  lemma {:induction false} FirstAfter(a: seq<Interval>, c: seq<Interval>, iv: Interval)
    requires Sorted(a + c) && AllBelow(a, iv) && NoneBelow(c, iv) && iv in a + c
    ensures |c| > 0 && c[0] == iv
  {
    forall j | 0 <= j < |a| ensures a[j] != iv { assert Less(a[j], iv); }
    assert iv in c;
    forall j | 0 < j < |c| ensures c[j] != iv {
      assert (a + c)[|a|] == c[0] && (a + c)[|a| + j] == c[j];
      assert !Less(c[0], iv);
    }
  }

  /** The path's intervals are in the tree. */
  lemma {:induction false} OnPath(fs: seq<Frame>, j: nat)
    requires j < |fs|
    ensures fs[j].iv in Before(fs) + After(fs)
    decreases |fs|
  {
    var f, front := fs[|fs| - 1], fs[..|fs| - 1];
    assert fs == front + [f];
    BeforeMore(front, f);
    if j < |fs| - 1 {
      OnPath(front, j);
      if fs[j].iv in Before(front) { assert fs[j].iv in Before(fs); } else { assert fs[j].iv in After(fs); }
    } else if f.dir == 1 {
      assert f.iv in BeforeIn(f);
    } else {
      assert f.iv in AfterIn(f);
    }
  }

  lemma {:induction false} FirstOnPath(fs: seq<Frame>)
    requires |After(fs)| > 0
    ensures exists j :: 0 <= j < |fs| && fs[j].iv == After(fs)[0]
    decreases |fs|
  {
    var f, front := fs[|fs| - 1], fs[..|fs| - 1];
    assert fs == front + [f];
    BeforeMore(front, f);
    if f.dir == 1 {
      assert After(fs) == After(front);
      FirstOnPath(front);
      var j :| 0 <= j < |front| && front[j].iv == After(front)[0];
      assert fs[j] == front[j];
    } else {
      assert fs[|fs| - 1].iv == After(fs)[0];
    }
  }

  /** At an empty hole. */
  lemma {:induction false} AtNil(fs: seq<Frame>, iv: Interval, all: seq<Interval>)
    requires Placed(fs, Nil, iv, all)
    ensures all == Before(fs) + After(fs)
  {
    assert Before(fs) + Flat(Nil) == Before(fs);
  }

  lemma {:induction false} OnPathIsIt(fs: seq<Frame>, iv: Interval)
    requires HasId(fs, iv.id) && SameId(Before(fs) + After(fs), iv)
    ensures iv in Before(fs) + After(fs)
  {
    var j: nat :| j < |fs| && fs[j].iv.id == iv.id;
    OnPath(fs, j);
    var all := Before(fs) + After(fs);
    var i :| 0 <= i < |all| && all[i] == fs[j].iv;
  }

  /** The search has seen iv's id exactly if iv is in the tree. */
  lemma {:induction false} FoundIff(fs: seq<Frame>, iv: Interval, all: seq<Interval>)
    requires Placed(fs, Nil, iv, all) && Sorted(all) && SameId(all, iv)
    ensures HasId(fs, iv.id) <==> iv in all
    ensures iv in all ==> |After(fs)| > 0 && After(fs)[0] == iv
  {
    AtNil(fs, iv, all);
    if HasId(fs, iv.id) {
      OnPathIsIt(fs, iv);
    }
    if iv in all {
      FirstAfter(Before(fs), After(fs), iv);
      FirstOnPath(fs);
    }
  }

  /** What is left of the path when its last node goes. */
  function Taken(fs: seq<Frame>, id: nat): (r: seq<Frame>)
    requires |fs| > 0
  {
    var last, front := fs[|fs| - 1], fs[..|fs| - 1];
    if last.iv.id == id then front else Renamed(front, id, last)
  }

  lemma {:induction false} TakenFlat(fs: seq<Frame>, iv: Interval, all: seq<Interval>)
    requires Placed(fs, Nil, iv, all) && Sorted(all) && SameId(all, iv) && HasId(fs, iv.id) && |fs| > 0
    ensures |After(fs)| > 0 && all == Before(fs) + [iv] + After(fs)[1..]
    ensures Before(Taken(fs, iv.id)) + Flat(fs[|fs| - 1].sib) + After(Taken(fs, iv.id)) == Before(fs) + After(fs)[1..]
  {
    var f, front := fs[|fs| - 1], fs[..|fs| - 1];
    FoundIff(fs, iv, all);
    AtNil(fs, iv, all);
    HeadFirst(Before(fs), After(fs), iv);
    SameIdPart(Before(fs), After(fs), iv);
    TakenSides(fs, front, f, iv);
  }

  lemma {:induction false} HeadFirst(a: seq<Interval>, c: seq<Interval>, x: Interval)
    requires |c| > 0 && c[0] == x
    ensures a + c == a + [x] + c[1..]
  {
    assert c == [x] + c[1..];
  }

  lemma {:induction false} TakenSides(fs: seq<Frame>, front: seq<Frame>, f: Frame, iv: Interval)
    requires |fs| > 0 && f == fs[|fs| - 1] && front == fs[..|fs| - 1]
    requires |After(fs)| > 0 && After(fs)[0] == iv && AllBelow(Before(fs), iv) && SameId(Before(fs), iv)
    ensures Before(Taken(fs, iv.id)) + Flat(f.sib) + After(Taken(fs, iv.id)) == Before(fs) + After(fs)[1..]
  {
    assert After(fs) == AfterIn(f) + After(front);
    if f.dir == 0 {
      FirstRest(f.iv, Flat(f.sib), After(front));
      assert Before(fs) == Before(front);
      Assoc(Before(front), Flat(f.sib), After(front));
    } else {
      assert After(fs) == After(front);
      BothBelow(Before(front), BeforeIn(f), iv);
      SameIdPart(Before(front), BeforeIn(f), iv);
      RightNotIt(f, iv);
      RenamedFlat(front, iv, f);
      Regroup(Before(front), Flat(f.sib), f.iv, After(front)[1..]);
    }
  }

  lemma {:induction false} Regroup(a: seq<Interval>, b: seq<Interval>, x: Interval, c: seq<Interval>)
    ensures a + b + ([x] + c) == (a + (b + [x])) + c
  {
  }

  lemma {:induction false} TakenRB(fs: seq<Frame>, iv: Interval, all: seq<Interval>, h: int)
    requires Heading(fs, Nil, iv, all, h) && |fs| > 0
    ensures RB(fs[|fs| - 1].sib, 0) && Fits(Taken(fs, iv.id), 0, IsRed(fs[|fs| - 1].sib))
  {
    var f, front := fs[|fs| - 1], fs[..|fs| - 1];
    RBPositive(f.sib, 0);
    if f.red {
      FitsBlack(front, 0, true);
      RenamedFits(front, iv.id, f, 0, false);
    }
  }

  /** All rules but the ranges, which a deletion leaves to adjustRanges. */
  ghost predicate Shaped(t: Tree) {
    Sorted(Flat(t)) && !IsRed(t) && exists h :: RB(t, h)
  }

  lemma {:induction false} Reshape(fs: seq<Frame>, t: Tree, h: int)
    requires RB(t, h) && Fits(fs, h, IsRed(t)) && Sorted(Before(fs) + Flat(t) + After(fs))
    ensures Shaped(Blackened(Plug(fs, t))) && Flat(Blackened(Plug(fs, t))) == Before(fs) + Flat(t) + After(fs)
  {
    PlugFlat(fs, t);
    var h1 := PlugRB(fs, t, h);
    var h2 := BlackenRB(Plug(fs, t), h1);
  }

  lemma {:induction false} SortedWithout(a: seq<Interval>, iv: Interval, c: seq<Interval>)
    requires Sorted(a + [iv] + c)
    ensures Sorted(a + c) && multiset(a + c) == multiset(a + [iv] + c) - multiset{iv} && iv !in a + c
  {
    var s, all, n := a + c, a + [iv] + c, |a|;
    assert all[n] == iv;
    forall i, j | 0 <= i < j < |s| ensures Less(s[i], s[j]) {
      assert s[i] == all[if i < n then i else i + 1] && s[j] == all[if j < n then j else j + 1];
    }
    forall i | 0 <= i < |s| ensures s[i] != iv {
      assert s[i] == all[if i < n then i else i + 1];
    }
  }

  /** A round of delete's loop. */
  method Round(fs: seq<Frame>, t: Tree, found: bool, iv: Interval, ghost all: seq<Interval>, ghost h: int)
    returns (fs': seq<Frame>, t': Tree, found': bool, ghost h': int)
    requires t.Node? && Heading(fs, t, iv, all, h) && Sorted(all) && SameId(all, iv) && (found <==> HasId(fs, iv.id))
    ensures Heading(fs', t', iv, all, h') && (found' <==> HasId(fs', iv.id)) && t' == Kid(t, Compare(t.iv, iv))
  {
    var d := Compare(t.iv, iv);
    found' := found || t.iv.id == iv.id;
    var fs1, t1;
    fs1, t1, h' := Push(fs, t, iv, all, h);
    HasIdMore(fs1, Open(t1, d), iv.id);
    PushDown(fs1, t1, iv, all, h');
    h' := if t1.red then h' else h' - 1;
    fs', t' := fs1 + [Open(t1, d)], Kid(t1, d);
  }

  lemma {:induction false} FirstHeading(root: Tree, iv: Interval, h: int)
    requires RB(root, h)
    ensures Heading([], root, iv, Flat(root), h)
  {
  }

  /** delete: the interval is out, and all rules hold but the ranges. */
  method Remove(root: Tree, iv: Interval) returns (r: Tree, found: bool)
    requires Shaped(root) && SameId(Flat(root), iv)
    ensures Shaped(r) && (found <==> iv in Flat(root)) && iv !in Flat(r)
    ensures multiset(Flat(r)) == multiset(Flat(root)) - multiset{iv}
  {
    ghost var h: int :| RB(root, h);
    var fs: seq<Frame>;
    FirstHeading(root, iv, h);
    fs, found, h := Search(root, iv, h);
    r := End(fs, found, iv, Flat(root), h);
  }

  /** The loop of delete. */
  method Search(root: Tree, iv: Interval, ghost h0: int) returns (fs: seq<Frame>, found: bool, ghost h: int)
    requires Heading([], root, iv, Flat(root), h0) && Sorted(Flat(root)) && SameId(Flat(root), iv)
    ensures Heading(fs, Nil, iv, Flat(root), h) && (found <==> HasId(fs, iv.id))
  {
    ghost var all := Flat(root);
    var t := root;
    fs, found, h := [], false, h0;
    while t.Node?
      invariant Heading(fs, t, iv, all, h) && (found <==> HasId(fs, iv.id))
      decreases t
    {
      fs, t, found, h := Round(fs, t, found, iv, all, h);
    }
  }

  /** The end of delete: the last node of the path goes, if the interval was found. */
  method End(fs: seq<Frame>, found: bool, iv: Interval, ghost all: seq<Interval>, ghost h: int) returns (r: Tree)
    requires Heading(fs, Nil, iv, all, h) && Sorted(all) && SameId(all, iv) && (found <==> HasId(fs, iv.id))
    ensures Shaped(r) && (found <==> iv in all) && iv !in Flat(r)
    ensures multiset(Flat(r)) == multiset(all) - multiset{iv}
  {
    FoundIff(fs, iv, all);
    if found {
      EndsTaken(fs, iv, all, h);
      r := Blackened(Plug(Taken(fs, iv.id), fs[|fs| - 1].sib));
    } else {
      EndsWhole(fs, iv, all, h);
      r := Blackened(Plug(fs, Nil));
    }
  }

  lemma {:induction false} EndsTaken(fs: seq<Frame>, iv: Interval, all: seq<Interval>, h: int)
    requires Heading(fs, Nil, iv, all, h) && Sorted(all) && SameId(all, iv) && HasId(fs, iv.id)
    ensures |fs| > 0
    ensures var r := Blackened(Plug(Taken(fs, iv.id), fs[|fs| - 1].sib));
      Shaped(r) && iv !in Flat(r) && multiset(Flat(r)) == multiset(all) - multiset{iv}
  {
    var a, c, rest, sib := Before(fs), After(fs), Taken(fs, iv.id), fs[|fs| - 1].sib;
    TakenFlat(fs, iv, all);
    TakenRB(fs, iv, all, h);
    SortedWithout(a, iv, c[1..]);
    Reshape(rest, sib, 0);
  }

  lemma {:induction false} EndsWhole(fs: seq<Frame>, iv: Interval, all: seq<Interval>, h: int)
    requires Heading(fs, Nil, iv, all, h) && Sorted(all) && iv !in all
    ensures var r := Blackened(Plug(fs, Nil));
      Shaped(r) && iv !in Flat(r) && multiset(Flat(r)) == multiset(all) - multiset{iv}
  {
    AtNil(fs, iv, all);
    assert Before(fs) + Flat(Nil) + After(fs) == all;
    Reshape(fs, Nil, h);
    assert iv !in multiset(all);
  }

  // ------------------------------------------------------- ranges and queries

  /** adjustRanges */
  function AdjustRanges(t: Tree): (r: Tree)
    ensures Exact(r) && Range(r) == Range(t) && Flat(r) == Flat(t) && IsRed(r) == IsRed(t)
  {
    if t.Nil? then Nil else SetRange(t.(l := AdjustRanges(t.l), r := AdjustRanges(t.r)))
  }

  lemma {:induction false} AdjustKeeps(t: Tree, h: int)
    requires RB(t, h)
    ensures RB(AdjustRanges(t), h)
  {
    if t.Node? {
      AdjustKeeps(t.l, if t.red then h else h - 1);
      AdjustKeeps(t.r, if t.red then h else h - 1);
    }
  }

  function Overlaps(high: int, otherHigh: int, low: int, otherLow: int): (b: bool) {
    high >= otherLow && low <= otherHigh
  }

  /** The interval overlaps [low, high] in the first dimension, and the query in the others. */
  predicate Hit(iv: Interval, low: int, high: int, others: Interval -> bool) {
    Overlaps(iv.high, high, iv.low, low) && others(iv)
  }

  ghost function Hits(s: seq<Interval>, low: int, high: int, others: Interval -> bool): (r: seq<Interval>) {
    if s == [] then [] else (if Hit(s[0], low, high, others) then [s[0]] else []) + Hits(s[1..], low, high, others)
  }

  lemma {:induction false} HitsConcat(a: seq<Interval>, b: seq<Interval>, low: int, high: int, others: Interval -> bool)
    ensures Hits(a + b, low, high, others) == Hits(a, low, high, others) + Hits(b, low, high, others)
  {
    if a == [] {
      assert a + b == b;
    } else {
      var one := if Hit(a[0], low, high, others) then [a[0]] else [];
      assert (a + b)[0] == a[0] && (a + b)[1..] == a[1..] + b;
      HitsConcat(a[1..], b, low, high, others);
      Assoc(one, Hits(a[1..], low, high, others), Hits(b, low, high, others));
    }
  }

  /** A range that does not overlap has no hit in it. */
  lemma {:induction false} NoHits(t: Tree, low: int, high: int, others: Interval -> bool)
    requires t.Node? && (Range(t).hi < low || Range(t).lo > high)
    ensures Hits(Flat(t), low, high, others) == []
  {
    HitsNode(t, low, high, others);
    if t.l.Node? { NoHits(t.l, low, high, others); }
    if t.r.Node? { NoHits(t.r, low, high, others); }
  }

  lemma {:induction false} HitsNode(t: Tree, low: int, high: int, others: Interval -> bool)
    requires t.Node?
    ensures Hits(Flat(t), low, high, others) ==
      Hits(Flat(t.l), low, high, others) + (if Hit(t.iv, low, high, others) then [t.iv] else []) + Hits(Flat(t.r), low, high, others)
  {
    HitsConcat(Flat(t.l) + [t.iv], Flat(t.r), low, high, others);
    HitsConcat(Flat(t.l), [t.iv], low, high, others);
    assert [t.iv][1..] == [];
    assert Hits([t.iv], low, high, others) == if Hit(t.iv, low, high, others) then [t.iv] else [];
  }

  /** The meaning of Hits: how often each interval is in it, and in which order. */
  lemma {:induction false} HitsMean(s: seq<Interval>, low: int, high: int, others: Interval -> bool, x: Interval)
    ensures multiset(Hits(s, low, high, others))[x] == if x.low <= high && low <= x.high && others(x) then multiset(s)[x] else 0
    ensures x in Hits(s, low, high, others) <==> x in s && x.low <= high && low <= x.high && others(x)
  {
    var r := Hits(s, low, high, others);
    if s != [] {
      var one := if Hit(s[0], low, high, others) then [s[0]] else [];
      HitsMean(s[1..], low, high, others, x);
      assert s == [s[0]] + s[1..];
      assert multiset(r) == multiset(one) + multiset(Hits(s[1..], low, high, others));
      assert multiset(s) == multiset([s[0]]) + multiset(s[1..]);
    }
    assert x in r <==> x in multiset(r);
    assert x in s <==> x in multiset(s);
  }

  lemma {:induction false} HitsSorted(s: seq<Interval>, low: int, high: int, others: Interval -> bool)
    requires Sorted(s)
    ensures Sorted(Hits(s, low, high, others))
  {
    if s != [] {
      var rest := Hits(s[1..], low, high, others);
      assert Sorted(s[1..]) by {
        forall i, j | 0 <= i < j < |s| - 1 ensures Less(s[1..][i], s[1..][j]) {
          assert Less(s[i + 1], s[j + 1]);
        }
      }
      HitsSorted(s[1..], low, high, others);
      forall j | 0 <= j < |rest| ensures Less(s[0], rest[j]) {
        HitsMean(s[1..], low, high, others, rest[j]);
        var i :| 0 <= i < |s[1..]| && s[1..][i] == rest[j];
        assert Less(s[0], s[i + 1]);
      }
    }
  }

  lemma {:induction false} QueryMeans(s: seq<Interval>, low: int, high: int, others: Interval -> bool, r: seq<Interval>)
    requires r == Hits(s, low, high, others)
    ensures
      && (forall x :: x in r <==> x in s && x.low <= high && low <= x.high && others(x))
      && (forall x :: multiset(r)[x] == if x.low <= high && low <= x.high && others(x) then multiset(s)[x] else 0)
      && (Sorted(s) ==> Sorted(r))
  {
    forall x ensures multiset(Hits(s, low, high, others))[x] == (if x.low <= high && low <= x.high && others(x) then multiset(s)[x] else 0)
                  && (x in Hits(s, low, high, others) <==> x in s && x.low <= high && low <= x.high && others(x)) {
      HitsMean(s, low, high, others, x);
    }
    if Sorted(s) { HitsSorted(s, low, high, others); }
  }

  /** query: prunes by range and still visits every interval that overlaps, once for each time it is there, in order. */
  method QueryNode(t: Tree, low: int, high: int, others: Interval -> bool) returns (r: seq<Interval>)
    requires t.Node? && Exact(t)
    ensures r == Hits(Flat(t), low, high, others)
    ensures forall x :: x in r <==> x in Flat(t) && x.low <= high && low <= x.high && others(x)
    ensures forall x :: multiset(r)[x] == if x.low <= high && low <= x.high && others(x) then multiset(Flat(t))[x] else 0
    ensures Sorted(Flat(t)) ==> Sorted(r)
    decreases t, 1
  {
    r := QueryParts(t, low, high, others);
    QueryMeans(Flat(t), low, high, others, r);
  }

  /** What query does: the left child, the node itself, the right child. */
  method QueryParts(t: Tree, low: int, high: int, others: Interval -> bool) returns (r: seq<Interval>)
    requires t.Node? && Exact(t)
    ensures r == Hits(Flat(t), low, high, others)
    decreases t, 0
  {
    r := QueryKid(t.l, low, high, others);
    if Hit(t.iv, low, high, others) {
      r := r + [t.iv];
    }
    var s := QueryKid(t.r, low, high, others);
    r := r + s;
    HitsNode(t, low, high, others);
  }

  /** query of a child, if it is there and its range overlaps. */
  method QueryKid(k: Tree, low: int, high: int, others: Interval -> bool) returns (r: seq<Interval>)
    requires Exact(k)
    ensures r == Hits(Flat(k), low, high, others)
    decreases k, 2
  {
    r := [];
    if k.Node? {
      if Overlaps(k.max, high, k.min, low) {
        r := QueryNode(k, low, high, others);
      } else {
        NoHits(k, low, high, others);
      }
    }
  }

  // ---------------------------------------------------------------- the tree

  class IntervalSet {
    var root: Tree
    var number: nat

    ghost predicate Valid() reads this {
      Good(root) && number == |Flat(root)|
    }

    constructor ()
      ensures Valid() && Flat(root) == []
    {
      root, number := Nil, 0;
      assert RB(Nil, 0);
    }

    /** Add of an interval with a new id. */
    method Add(iv: Interval)
      requires Valid() && NewId(Flat(root), iv)
      modifies this
      ensures Valid() && multiset(Flat(root)) == multiset(old(Flat(root))) + multiset{iv}
    {
      root := Insert(root, iv);
      SameLength(old(Flat(root)), Flat(root), iv);
      number := number + 1;
    }

    /** Delete: exactly the given intervals go. */
    method Delete(ivs: seq<Interval>)
      requires Valid() && (forall i :: 0 <= i < |ivs| ==> SameId(Flat(root), ivs[i]))
      modifies this
      ensures Valid() && (forall x :: x in Flat(root) <==> x in old(Flat(root)) && x !in ivs)
    {
      var j := 0;
      while j < |ivs|
        invariant 0 <= j <= |ivs| && Shaped(root) && number == |Flat(root)|
        invariant forall x :: x in Flat(root) <==> x in old(Flat(root)) && x !in ivs[..j]
      {
        SameIdAmong(old(Flat(root)), Flat(root), ivs[j]);
        DeleteOne(ivs[j]);
        assert ivs[..j + 1] == ivs[..j] + [ivs[j]];
        j := j + 1;
      }
      assert ivs[..j] == ivs;
      Adjust();
    }

    method DeleteOne(iv: Interval)
      requires Shaped(root) && number == |Flat(root)| && SameId(Flat(root), iv)
      modifies this
      ensures Shaped(root) && number == |Flat(root)|
      ensures forall x :: x in Flat(root) <==> x in old(Flat(root)) && x != iv
    {
      var r, found := Remove(root, iv);
      RemovedMembers(Flat(root), Flat(r), iv);
      if found {
        number := number - 1;
      }
      root := r;
    }

    method Adjust()
      requires Shaped(root) && number == |Flat(root)|
      modifies this`root
      ensures Valid() && Flat(root) == old(Flat(root))
    {
      ghost var h: int :| RB(root, h);
      AdjustKeeps(root, h);
      root := AdjustRanges(root);
    }

    /** Query: exactly the overlapping intervals, each as often as it is in the tree, in order. */
    method Query(low: int, high: int, others: Interval -> bool) returns (r: seq<Interval>)
      requires Valid()
      ensures r == Hits(Flat(root), low, high, others)
      ensures forall x :: x in r <==> x in Flat(root) && x.low <= high && low <= x.high && others(x)
      ensures forall x :: multiset(r)[x] == if x.low <= high && low <= x.high && others(x) then multiset(Flat(root))[x] else 0
      ensures Sorted(r)
    {
      r := [];
      if root.Node? {
        r := QueryNode(root, low, high, others);
      }
    }

    method Len() returns (n: nat)
      requires Valid()
      ensures n == |Flat(root)|
    {
      n := number;
    }
  }

  lemma {:induction false} SameIdAmong(a: seq<Interval>, b: seq<Interval>, iv: Interval)
    requires SameId(a, iv) && (forall x :: x in b ==> x in a)
    ensures SameId(b, iv)
  {
    forall i | 0 <= i < |b| && b[i].id == iv.id ensures b[i] == iv {
      assert b[i] in b;
      var j :| 0 <= j < |a| && a[j] == b[i];
    }
  }

  lemma {:induction false} SameLength(a: seq<Interval>, b: seq<Interval>, iv: Interval)
    requires multiset(b) == multiset(a) + multiset{iv}
    ensures |b| == |a| + 1
  {
    assert |multiset(b)| == |b| && |multiset(a)| == |a|;
  }

  lemma {:induction false} RemovedMembers(a: seq<Interval>, b: seq<Interval>, iv: Interval)
    requires multiset(b) == multiset(a) - multiset{iv} && iv !in b
    ensures forall x :: x in b <==> x in a && x != iv
    ensures |b| == if iv in a then |a| - 1 else |a|
  {
    assert |multiset(b)| == |b| && |multiset(a)| == |a|;
    forall x ensures x in b <==> x in a && x != iv {
      assert x in b <==> x in multiset(b);
      assert x in a <==> x in multiset(a);
    }
    if iv in a {
      assert multiset(a) == multiset(b) + multiset{iv};
    } else {
      assert multiset(a) == multiset(b);
    }
  }
}
