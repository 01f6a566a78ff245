/**
 * The Hilbert curve of numerics/hilbert/hilbert.go: Encode and Decode as the loops of the
 * source, on 32- and 64-bit integers, against recursive definitions of the curve of every
 * order.
 */
module Hilbert {
  import opened Basics

  newtype int32 = x: int | -0x8000_0000 <= x < 0x8000_0000
  newtype int64 = x: int | -0x8000_0000_0000_0000 <= x < 0x8000_0000_0000_0000

  /** A cell of the grid. */
  datatype Point = Point(x: int, y: int)

  /** Side of the curve of order `k`. */
  function Pow2(k: nat): (p: nat)
    ensures p > 0
  {
    if k == 0 then 1 else 2 * Pow2(k - 1)
  }

  /** Number of cells of the curve of order `k`. */
  function Pow4(k: nat): (p: nat)
    ensures p > 0
  {
    if k == 0 then 1 else 4 * Pow4(k - 1)
  }

  lemma {:induction false} SquareOfSide(k: nat)
    ensures Pow2(k) * Pow2(k) == Pow4(k)
  {
    if k > 0 { SquareOfSide(k - 1); }
  }

  // ------------------------------------------------------------ the curve

  /** rotate, for a quadrant of side `n`. */
  function Rotated(n: int, rx: int, ry: int, p: Point): (r: Point) {
    if ry == 0 then
      (if rx == 1 then Point(n - 1 - p.y, n - 1 - p.x) else Point(p.y, p.x))
    else p
  }

  /** Exclusive or of two bits. */
  function Xor(a: int, b: int): (c: int) { if a == b then 0 else 1 }

  /** (3 * rx) ^ ry: the order in which the curve visits the quadrants. */
  function Visit(rx: int, ry: int): (q: int) {
    if rx == 0 then ry else 3 - ry
  }

  ghost predicate InSquare(side: int, p: Point) {
    0 <= p.x < side && 0 <= p.y < side
  }

  /** Where the q-th of four stretches of `cells` cells starts: q * cells. */
  function Start(q: int, cells: nat): (h: nat) {
    if q <= 0 then 0 else if q == 1 then cells else if q == 2 then 2 * cells else 3 * cells
  }

  /** Which of four stretches of `cells` cells the distance `h` falls in. */
  function Quadrant(h: nat, cells: nat): (q: nat)
    requires h < 4 * cells
    ensures q < 4 && Start(q, cells) <= h < Start(q, cells) + cells
  {
    if h < cells then 0 else if h < 2 * cells then 1 else if h < 3 * cells then 2 else 3
  }

  /** `bit` times `n`. */
  function Scaled(n: int, bit: int): (r: int) { if bit == 1 then n else 0 }

  /** The rx and ry of a quadrant by its place on the curve. */
  function RxOf(q: int): (rx: int) { if q >= 2 then 1 else 0 }
  function RyOf(q: int): (ry: int) { if q == 1 || q == 2 then 1 else 0 }

  /** A cell of a quadrant, given as a cell of the curve of the next lower order. */
  function Placed(s: int, q: int, inner: Point): (p: Point) {
    var p := Rotated(s, RxOf(q), RyOf(q), inner);
    Point(p.x + Scaled(s, RxOf(q)), p.y + Scaled(s, RyOf(q)))
  }

  /** The cell at distance `h` along the curve of order `k`. */
  ghost function CellAt(k: nat, h: nat): (p: Point)
    requires h < Pow4(k)
    ensures InSquare(Pow2(k), p)
  {
    if k == 0 then Point(0, 0)
    else
      var q := Quadrant(h, Pow4(k - 1));
      Placed(Pow2(k - 1), q, CellAt(k - 1, h - Start(q, Pow4(k - 1))))
  }

  /** The distance of a cell along the curve of order `k`. */
  ghost function DistanceOf(k: nat, p: Point): (d: nat)
    requires InSquare(Pow2(k), p)
    ensures d < Pow4(k)
  {
    if k == 0 then 0
    else
      var (q, inner) := InnerOf(Pow2(k - 1), p);
      Start(q, Pow4(k - 1)) + DistanceOf(k - 1, inner)
  }

  /** A cell shows which quadrant it was placed in, and where there. */
  lemma {:induction false} PlacedBack(s: int, q: int, inner: Point)
    requires InSquare(s, inner) && 0 <= q < 4
    ensures InSquare(2 * s, Placed(s, q, inner)) && InnerOf(s, Placed(s, q, inner)) == (q, inner)
  {
  }

  lemma {:induction false} DistanceOfCell(k: nat, h: nat)
    requires h < Pow4(k)
    ensures DistanceOf(k, CellAt(k, h)) == h
  {
    if k > 0 {
      var q := Quadrant(h, Pow4(k - 1));
      var r := h - Start(q, Pow4(k - 1));
      DistanceOfCell(k - 1, r);
      PlacedBack(Pow2(k - 1), q, CellAt(k - 1, r));
    }
  }

  lemma {:induction false} QuadrantOfStart(q: int, cells: nat, r: nat)
    requires 0 <= q < 4 && r < cells
    ensures Start(q, cells) + r < 4 * cells && Quadrant(Start(q, cells) + r, cells) == q
  {
  }

  /** The point of the quadrant `p` lies in, and the quadrant's place on the curve. */
  function InnerOf(s: int, p: Point): (r: (int, Point)) {
    var rx, ry := if p.x >= s then 1 else 0, if p.y >= s then 1 else 0;
    (Visit(rx, ry), Rotated(s, rx, ry, Point(p.x - Scaled(s, rx), p.y - Scaled(s, ry))))
  }

  lemma {:induction false} PlacedForth(s: int, p: Point)
    requires InSquare(2 * s, p)
    ensures var (q, inner) := InnerOf(s, p);
      0 <= q < 4 && InSquare(s, inner) && Placed(s, q, inner) == p
  {
  }

  lemma {:induction false} CellOfDistance(k: nat, p: Point)
    requires InSquare(Pow2(k), p)
    ensures CellAt(k, DistanceOf(k, p)) == p
  {
    if k > 0 {
      var (q, inner) := InnerOf(Pow2(k - 1), p);
      PlacedForth(Pow2(k - 1), p);
      CellOfDistance(k - 1, inner);
      QuadrantOfStart(q, Pow4(k - 1), DistanceOf(k - 1, inner));
    }
  }

  // ------------------------------------------------------------ adjacency

  function Abs(a: int): (b: nat) { if a < 0 then -a else a }

  /** Manhattan distance. */
  function Apart(p: Point, q: Point): (d: nat) { Abs(p.x - q.x) + Abs(p.y - q.y) }

  /** The curve starts in the corner (0, 0) and ends in the corner (side - 1, 0). */
  lemma {:induction false} EndPoints(k: nat)
    ensures CellAt(k, 0) == Point(0, 0)
    ensures CellAt(k, Pow4(k) - 1) == Point(Pow2(k) - 1, 0)
  {
    if k > 0 {
      EndPoints(k - 1);
      var s, cells := Pow2(k - 1), Pow4(k - 1);
      QuadrantOfStart(0, cells, 0);
      QuadrantOfStart(3, cells, cells - 1);
      CornersPlaced(s);
    }
  }

  lemma {:induction false} CornersPlaced(s: int)
    ensures Placed(s, 0, Point(0, 0)) == Point(0, 0)
    ensures Placed(s, 3, Point(s - 1, 0)) == Point(2 * s - 1, 0)
  {
  }

  /** Placing is an isometry. */
  lemma {:induction false} PlacedApart(s: int, q: int, a: Point, b: Point)
    ensures Apart(Placed(s, q, a), Placed(s, q, b)) == Apart(a, b)
  {
  }

  /** The last cell of a quadrant touches the first cell of the next. */
  lemma {:induction false} QuadrantsMeet(s: int, q: int)
    requires 0 <= q < 3 && s > 0
    ensures Apart(Placed(s, q, Point(s - 1, 0)), Placed(s, q + 1, Point(0, 0))) == 1
  {
  }

  lemma {:induction false} CellUnfolds(k: nat, h: nat, q: nat, r: nat)
    requires k > 0 && q < 4 && r < Pow4(k - 1) && h == Start(q, Pow4(k - 1)) + r
    ensures h < Pow4(k) && CellAt(k, h) == Placed(Pow2(k - 1), q, CellAt(k - 1, r))
  {
    QuadrantOfStart(q, Pow4(k - 1), r);
  }

  lemma {:induction false} NeighboursWithin(k: nat, h: nat, q: nat, r: nat)
    requires k > 0 && q < 4 && r + 1 < Pow4(k - 1) && h == Start(q, Pow4(k - 1)) + r
    requires Apart(CellAt(k - 1, r), CellAt(k - 1, r + 1)) == 1
    ensures h + 1 < Pow4(k) && Apart(CellAt(k, h), CellAt(k, h + 1)) == 1
  {
    CellUnfolds(k, h, q, r);
    CellUnfolds(k, h + 1, q, r + 1);
    PlacedApart(Pow2(k - 1), q, CellAt(k - 1, r), CellAt(k - 1, r + 1));
  }

  lemma {:induction false} NeighboursAcross(k: nat, h: nat, q: nat)
    requires k > 0 && q < 3 && h == Start(q, Pow4(k - 1)) + Pow4(k - 1) - 1
    ensures h + 1 < Pow4(k) && Apart(CellAt(k, h), CellAt(k, h + 1)) == 1
  {
    var s, cells := Pow2(k - 1), Pow4(k - 1);
    assert h + 1 == Start(q + 1, cells);
    assert CellAt(k, h) == Placed(s, q, Point(s - 1, 0)) by {
      EndPoints(k - 1);
      CellUnfolds(k, h, q, cells - 1);
    }
    assert CellAt(k, h + 1) == Placed(s, q + 1, Point(0, 0)) by {
      EndPoints(k - 1);
      CellUnfolds(k, h + 1, q + 1, 0);
    }
    QuadrantsMeet(s, q);
  }

  /** Consecutive cells of the curve of any order are neighbours. */
  lemma {:induction false} NeighboursOnCurve(k: nat, h: nat)
    requires h + 1 < Pow4(k)
    ensures Apart(CellAt(k, h), CellAt(k, h + 1)) == 1
  {
    var cells := Pow4(k - 1);
    var q := Quadrant(h, cells);
    var r := h - Start(q, cells);
    if r + 1 < cells {
      NeighboursOnCurve(k - 1, r);
      NeighboursWithin(k, h, q, r);
    } else {
      NeighboursAcross(k, h, q);
    }
  }

  // ------------------------------------------------------------ the loops

  /** The bit `s`, a power of two, of a two's complement number: x & s > 0. */
  function Bit(x: int, s: int): (b: int)
    requires s > 0
    ensures b == 0 || b == 1
  {
    x / s % 2
  }

  /** The low bits of both coordinates, as a cell of the curve of order `k`. */
  ghost function Low(k: nat, x: int, y: int): (p: Point)
    ensures InSquare(Pow2(k), p)
  {
    Point(x % Pow2(k), y % Pow2(k))
  }

  /** Taking off the top bit of the low bits. */
  lemma {:induction false} TopBit(x: int, s: int)
    requires s > 0
    ensures x % (2 * s) == x % s + Scaled(s, Bit(x, s))
  {
    var q, r := x / s, x % s;
    var a, b := q / 2, q % 2;
    assert x == (2 * a + b) * s + r;
    assert (2 * a + b) * s == a * (2 * s) + b * s;
    Unique(x, 2 * s, a, Scaled(s, b) + r);
  }

  /** Reflecting a coordinate of which only the low bits count. */
  lemma {:induction false} Reflected(x: int, s: int)
    requires s > 0
    ensures (s - 1 - x) % s == s - 1 - x % s
  {
    var q, r := x / s, x % s;
    assert s - 1 - x == (-q) * s + (s - 1 - r);
    Unique(s - 1 - x, s, -q, s - 1 - r);
  }

  /** rotate */
  method Rotate(n: int32, rx: int32, ry: int32, x: int32, y: int32) returns (x': int32, y': int32)
    requires 0 < n <= 0x4000_0000
    requires rx == 1 && ry == 0 ==> -0x8000_0000 + 2 * (n as int) <= x as int && -0x8000_0000 + 2 * (n as int) <= y as int
    ensures Point(x' as int, y' as int) == Rotated(n as int, rx as int, ry as int, Point(x as int, y as int))
  {
    x', y' := x, y;
    if ry == 0 {
      if rx == 1 {
        x' := n - 1 - x';
        y' := n - 1 - y';
      }
      var t := x';
      x' := y';
      y' := t;
    }
  }

  /** Which quadrant the low bits are in, and where there, read from the unmasked coordinates. */
  lemma {:induction false} InnerFromBits(s: int, x: int, y: int)
    requires s > 0
    ensures var rx, ry := Bit(x, s), Bit(y, s);
      var r := Rotated(s, rx, ry, Point(x, y));
      InnerOf(s, Point(x % (2 * s), y % (2 * s))) == (Visit(rx, ry), Point(r.x % s, r.y % s))
  {
    var rx, ry := Bit(x, s), Bit(y, s);
    TopBit(x, s);
    TopBit(y, s);
    var r := Rotated(s, rx, ry, Point(x, y));
    assert Point(r.x % s, r.y % s) == Rotated(s, rx, ry, Point(x % s, y % s)) by {
      Reflected(x, s);
      Reflected(y, s);
    }
    QuadrantFromBits(s, x % s, y % s, rx, ry);
  }

  lemma {:induction false} QuadrantFromBits(s: int, lx: int, ly: int, rx: int, ry: int)
    requires 0 <= lx < s && 0 <= ly < s && (rx == 0 || rx == 1) && (ry == 0 || ry == 1)
    ensures InnerOf(s, Point(lx + Scaled(s, rx), ly + Scaled(s, ry))) == (Visit(rx, ry), Rotated(s, rx, ry, Point(lx, ly)))
  {
  }

  /** One turn of Encode's loop takes one level off the curve, although no bit is masked out. */
  lemma {:induction false} EncodeStep(k: nat, x: int, y: int)
    requires k > 0
    ensures var s := Pow2(k - 1);
      var rx, ry := Bit(x, s), Bit(y, s);
      var r := Rotated(s, rx, ry, Point(x, y));
      DistanceOf(k, Low(k, x, y)) == Start(Visit(rx, ry), Pow4(k - 1)) + DistanceOf(k - 1, Low(k - 1, r.x, r.y))
  {
    InnerFromBits(Pow2(k - 1), x, y);
  }

  lemma {:induction false} FourMore(k: nat)
    ensures Pow2(k + 4) == 16 * Pow2(k) && Pow4(k + 4) == 256 * Pow4(k)
  {
    assert Pow2(k + 2) == 4 * Pow2(k) && Pow4(k + 2) == 16 * Pow4(k);
    assert Pow2(k + 4) == 4 * Pow2(k + 2) && Pow4(k + 4) == 16 * Pow4(k + 2);
  }

  lemma {:induction false} Sizes()
    ensures Pow2(30) == 0x4000_0000 && Pow2(31) == 0x8000_0000
    ensures Pow4(31) == 0x4000_0000_0000_0000
  {
    assert Pow2(2) == 4 && Pow4(2) == 16;
    FourMore(2); FourMore(6); FourMore(10); FourMore(14); FourMore(18); FourMore(22); FourMore(26);
  }

  lemma {:induction false} SidesGrow(a: nat, b: nat)
    requires a < b
    ensures Pow2(a) < Pow2(b)
  {
    if a + 1 < b { SidesGrow(a, b - 1); }
  }

  lemma {:induction false} StartIsProduct(q: int, cells: nat)
    requires 0 <= q < 4
    ensures q * cells == Start(q, cells)
  {
    if q == 0 {} else if q == 1 {} else if q == 2 {} else {}
  }

  /** At the head of Encode's loop, with `k` levels to go: d and the distance within them add up to `total`. */
  ghost predicate Encoding(k: nat, s: int32, d: int64, px: int32, py: int32, total: int) {
    && k <= 31 && s as int == (if k == 0 then 0 else Pow2(k - 1)) && s <= 0x4000_0000
    && -0x8000_0000 + 2 * (s as int) <= px as int && -0x8000_0000 + 2 * (s as int) <= py as int
    && 0 <= d && d as int + DistanceOf(k, Low(k, px as int, py as int)) == total
  }

  /** The part of the distance that one turn of Encode adds. */
  lemma {:induction false} EncodePart(k: nat, s: int, x: int, y: int)
    requires 0 < k && s == Pow2(k - 1)
    ensures var q := Visit(Bit(x, s), Bit(y, s));
      q * (s * s) + DistanceOf(k - 1, Low(k - 1, Rotated(s, Bit(x, s), Bit(y, s), Point(x, y)).x, Rotated(s, Bit(x, s), Bit(y, s), Point(x, y)).y))
        == DistanceOf(k, Low(k, x, y)) && 0 <= q * (s * s)
  {
    EncodeStep(k, x, y);
    SquareOfSide(k - 1);
    StartIsProduct(Visit(Bit(x, s), Bit(y, s)), Pow4(k - 1));
  }

  /** One turn of Encode's loop. */
  method EncodeTurn(s: int32, d: int64, px: int32, py: int32, ghost k: nat, ghost total: nat)
    returns (s': int32, d': int64, px': int32, py': int32)
    requires s > 0 && k > 0 && Encoding(k, s, d, px, py, total) && total < 0x4000_0000_0000_0000
    ensures Encoding(k - 1, s', d', px', py', total) && s' < s
  {
    var rx := Bit(px as int, s as int) as int32;
    var ry := Bit(py as int, s as int) as int32;
    EncodePart(k, s as int, px as int, py as int);
    var area := s as int * s as int;
    d' := d + (Visit(rx as int, ry as int) * area) as int64;
    px', py' := Rotate(s, rx, ry, px, py);
    s' := s / 2;
  }

  method Encode(x: int32, y: int32) returns (d: int64)
    requires 0 <= x && 0 <= y
    ensures InSquare(Pow2(31), Point(x as int, y as int))
    ensures d as int == DistanceOf(31, Point(x as int, y as int))
  {
    ghost var total := FirstEncoding(x, y);
    d := EncodeFrom(x, y, 31, total);
  }

  lemma {:induction false} FirstEncoding(x: int32, y: int32) returns (total: nat)
    requires 0 <= x && 0 <= y
    ensures InSquare(Pow2(31), Point(x as int, y as int)) && total == DistanceOf(31, Point(x as int, y as int))
    ensures Encoding(31, 0x4000_0000, 0, x, y, total) && total < 0x4000_0000_0000_0000
  {
    Sizes();
    total := DistanceOf(31, Point(x as int, y as int));
    assert Low(31, x as int, y as int) == Point(x as int, y as int);
  }

  /** The loop of Encode. */
  method EncodeFrom(x: int32, y: int32, ghost levels: nat, ghost total: nat) returns (d: int64)
    requires Encoding(levels, 0x4000_0000, 0, x, y, total) && total < 0x4000_0000_0000_0000
    ensures d as int == total
  {
    var px, py := x, y;
    var s: int32 := 0x4000_0000;
    ghost var k := levels;
    d := 0;
    while s > 0
      invariant Encoding(k, s, d, px, py, total)
      decreases s
    {
      s, d, px, py := EncodeTurn(s, d, px, py, k, total);
      k := k - 1;
    }
    LastLevel(k, s, px, py);
  }

  lemma {:induction false} LastLevel(k: nat, s: int32, px: int32, py: int32)
    requires s <= 0 && s as int == if k == 0 then 0 else Pow2(k - 1)
    ensures DistanceOf(k, Low(k, px as int, py as int)) == 0
  {
  }

  /** What is left of `h` after `i` turns of Decode's loop, and the distance the turns used up. */
  ghost function Peeled(h: nat, i: nat): (r: (nat, nat))
    ensures r.1 < Pow4(i)
  {
    if i == 0 then (h, 0)
    else
      var (t, rest) := Peeled(h, i - 1);
      (t / 4, Start(t % 4, Pow4(i - 1)) + rest)
  }

  lemma {:induction false} PeeledSum(h: nat, i: nat)
    ensures h == Peeled(h, i).0 * Pow4(i) + Peeled(h, i).1
  {
    if i > 0 {
      PeeledSum(h, i - 1);
      var (t, rest) := Peeled(h, i - 1);
      var cells, q, a := Pow4(i - 1), t % 4, t / 4;
      assert t == 4 * a + q;
      Distribute(a, q, cells);
      StartIsProduct(q, cells);
    }
  }

  lemma {:induction false} Distribute(a: int, q: int, n: int)
    ensures (4 * a + q) * n == a * (4 * n) + q * n
  {
  }

  /** One turn of Decode's loop adds one level to the curve. */
  lemma {:induction false} DecodeStep(h: nat, i: nat)
    ensures var (t, rest) := Peeled(h, i);
      CellAt(i + 1, Peeled(h, i + 1).1) == Placed(Pow2(i), t % 4, CellAt(i, rest))
  {
    var (t, rest) := Peeled(h, i);
    QuadrantOfStart(t % 4, Pow4(i), rest);
  }

  /** rx and ry of a quadrant as Decode reads them from two bits. */
  lemma {:induction false} BitsOfQuadrant(t: int)
    requires t >= 0
    ensures t / 2 % 2 == RxOf(t % 4) && Xor(t % 2, t / 2 % 2) == RyOf(t % 4)
  {
  }

  lemma {:induction false} ScaledIsProduct(s: int64, bit: int64)
    requires 0 <= s < 0x8000_0000 && (bit == 0 || bit == 1)
    ensures (s * bit) as int == Scaled(s as int, bit as int)
  {
    if bit == 0 {} else {}
  }

  /** At the head of Decode's loop, after `i` turns. */
  ghost predicate Decoding(h: int64, i: nat, s: int64, t: int64, x: int32, y: int32) {
    && 0 <= h && i <= 31 && s as int == Pow2(i) && 0 <= t && 0 < s <= 0x8000_0000 && (i < 31 ==> s <= 0x4000_0000)
    && t as int == Peeled(h as int, i).0 && Point(x as int, y as int) == CellAt(i, Peeled(h as int, i).1)
  }

  /** One turn of Decode's loop. */
  method DecodeTurn(s: int64, t: int64, x: int32, y: int32, ghost h: int64, ghost i: nat)
    returns (s': int64, t': int64, x': int32, y': int32)
    requires Decoding(h, i, s, t, x, y) && i < 31
    ensures Decoding(h, i + 1, s', t', x', y')
  {
    var rx: int64 := t / 2 % 2;
    var ry: int64 := Xor(t as int % 2, rx as int) as int64;
    BitsOfQuadrant(t as int);
    DecodeStep(h as int, i);
    SizeBelow(i + 1);
    x', y' := Rotate(s as int32, rx as int32, ry as int32, x, y);
    x', y' := Shift(x', y', s, rx, ry);
    t' := t / 4;
    s' := s * 2;
  }

  lemma {:induction false} SizeBelow(i: nat)
    requires i <= 31
    ensures Pow2(i) <= 0x8000_0000 && (i < 31 ==> Pow2(i) <= 0x4000_0000)
  {
    Sizes();
    if i < 30 { SidesGrow(i, 30); }
  }

  /** *x += s * rx and *y += s * ry */
  method Shift(x: int32, y: int32, s: int64, rx: int64, ry: int64) returns (x': int32, y': int32)
    requires 0 < s <= 0x4000_0000 && (rx == 0 || rx == 1) && (ry == 0 || ry == 1)
    requires 0 <= x as int < s as int && 0 <= y as int < s as int
    ensures x' as int == x as int + Scaled(s as int, rx as int) && y' as int == y as int + Scaled(s as int, ry as int)
  {
    ScaledIsProduct(s, rx);
    ScaledIsProduct(s, ry);
    x' := x + (s * rx) as int32;
    y' := y + (s * ry) as int32;
  }

  method Decode(h: int64) returns (x: int32, y: int32)
    requires 0 <= h
    ensures Point(x as int, y as int) == CellAt(31, h as int % Pow4(31))
  {
    x, y := DecodeAll(h, 31);
    PeeledAll(h, 31);
  }

  /** The loop of Decode. */
  method DecodeAll(h: int64, ghost levels: nat) returns (x: int32, y: int32)
    requires 0 <= h && levels == 31
    ensures Point(x as int, y as int) == CellAt(levels, Peeled(h as int, levels).1)
  {
    var t, s: int64 := h, 1;
    x, y := 0, 0;
    ghost var i: nat := 0;
    while s < 0x8000_0000
      invariant Decoding(h, i, s, t, x, y)
      decreases levels - i
    {
      SizeAt(i, levels);
      s, t, x, y := DecodeTurn(s, t, x, y, h, i);
      i := i + 1;
    }
    SizeAt(i, levels);
  }

  lemma {:induction false} SizeAt(i: nat, levels: nat)
    requires i <= 31 == levels
    ensures i == levels <==> Pow2(i) >= 0x8000_0000
  {
    Sizes();
    if i < levels { SidesGrow(i, levels); }
  }

  /** What the turns used up is the distance modulo the number of cells. */
  lemma {:induction false} PeeledAll(h: int64, levels: nat)
    requires 0 <= h
    ensures Peeled(h as int, levels).1 == h as int % Pow4(levels)
  {
    PeeledSum(h as int, levels);
    Unique(h as int, Pow4(levels), Peeled(h as int, levels).0, Peeled(h as int, levels).1);
  }

  // ------------------------------------------------ what the loops compute

  /** Decode inverts Encode on every pair of non-negative coordinates, and Encode is onto [0, 2^62). */
  method RoundTripFromCell(x: int32, y: int32) returns (x': int32, y': int32)
    requires 0 <= x && 0 <= y
    ensures x' == x && y' == y
  {
    var d := Encode(x, y);
    x', y' := Decode(d);
    CellOfDistance(31, Point(x as int, y as int));
    Unique(d as int, Pow4(31), 0, d as int);
  }

  /** Encode inverts Decode on every distance of the curve. */
  method RoundTripFromDistance(h: int64) returns (h': int64)
    requires 0 <= h < 0x4000_0000_0000_0000
    ensures h' == h
  {
    Sizes();
    var x, y := Decode(h);
    Unique(h as int, Pow4(31), 0, h as int);
    DistanceOfCell(31, h as int);
    assert 0 <= x && 0 <= y;
    h' := Encode(x, y);
  }

  /** Consecutive distances decode to neighbouring cells. */
  method DecodeNeighbours(h: int64) returns (apart: int)
    requires 0 <= h < 0x4000_0000_0000_0000 - 1
    ensures apart == 1
  {
    Sizes();
    var x, y := Decode(h);
    var x', y' := Decode(h + 1);
    Unique(h as int, Pow4(31), 0, h as int);
    Unique(h as int + 1, Pow4(31), 0, h as int + 1);
    NeighboursOnCurve(31, h as int);
    apart := Apart(Point(x as int, y as int), Point(x' as int, y' as int));
  }
}
