/**
 * Word arithmetic shared by queue/ring.go and hashmap/fastinteger/hashmap.go:
 * rounding up to a power of two, on 64-bit words and on numbers, and masking with such a
 * power less one.
 */
module Bits {
  import opened Basics

  /** Exactly one bit is set. */
  predicate OneBit(v: bv64) {
    v != 0 && v & (v - 1) == 0
  }

  /** `m` has every bit up to the highest one of `w`, and no other. */
  predicate Covers(m: bv64, w: bv64) {
    m & (m + 1) == 0 && w <= m && (if w == 0 then m == 0 else m >> 1 < w)
  }

  /** The shift-and-or cascade of roundUp. */
  function Smear(v: bv64): (r: bv64)
    ensures Covers(r, v)
  {
    var a := v | (v >> 1);
    var b := a | (a >> 2);
    var c := b | (b >> 4);
    var d := c | (c >> 8);
    var e := d | (d >> 16);
    e | (e >> 32)
  }

  lemma CoverPlusOne(m: bv64, w: bv64)
    requires Covers(m, w) && w < 0x8000_0000_0000_0000
    ensures OneBit(m + 1) && w < m + 1
  {
  }

  lemma NoPowerBetween(m: bv64, w: bv64, p: bv64)
    requires Covers(m, w) && w < 0x8000_0000_0000_0000
    requires OneBit(p) && w < p
    ensures m + 1 <= p
  {
  }

  /**
   * roundUp(w + 1) = Smear(w) + 1 is the least power of two above `w`, for every `w`
   * small enough for a 64-bit word to hold the result.
   */
  lemma RoundUpIsLeastPower(w: bv64, p: bv64)
    requires w < 0x8000_0000_0000_0000
    requires OneBit(p) && w < p
    ensures OneBit(Smear(w) + 1)
    ensures w < Smear(w) + 1 <= p
  {
    CoverPlusOne(Smear(w), w);
    NoPowerBetween(Smear(w), w, p);
  }

  // ------------------------------------------------------------ unsigned numbers

  predicate IsPowerOfTwo(n: nat) {
    n == 1 || (n > 0 && n % 2 == 0 && IsPowerOfTwo(n / 2))
  }

  /** roundUp: the least power of two from `p` on that is at least `v`. */
  function RoundUpFrom(v: nat, p: nat): (r: nat)
    requires IsPowerOfTwo(p)
    ensures IsPowerOfTwo(r) && r >= v && r >= p
    ensures r == p || r < 2 * v
    decreases v - p
  {
    if p >= v then p else RoundUpFrom(v, 2 * p)
  }

  function RoundUp(v: nat): (r: nat)
    ensures IsPowerOfTwo(r) && r >= v && (v > 0 ==> r < 2 * v)
  {
    RoundUpFrom(v, 1)
  }

  /** RoundUp is the least power of two that is at least v. */
  lemma {:induction false} RoundUpIsLeast(v: nat, p: nat)
    requires IsPowerOfTwo(p) && v <= p
    ensures RoundUp(v) <= p
  {
    if RoundUp(v) > p {
      PowersApart(p, RoundUp(v));
    }
  }

  /** Between two powers of two there is at least a doubling. */
  lemma {:induction false} PowersApart(a: nat, b: nat)
    requires IsPowerOfTwo(a) && IsPowerOfTwo(b) && a < b
    ensures 2 * a <= b
  {
    if a > 1 { PowersApart(a / 2, b / 2); }
  }

  /** The bitwise and of two unsigned numbers. */
  function And(x: nat, y: nat): (r: nat) {
    if x == 0 || y == 0 then 0 else 2 * And(x / 2, y / 2) + (x % 2) * (y % 2)
  }

  /** Masking with a power of two less one is taking the remainder. */
  lemma {:induction false} MaskIsRemainder(x: nat, p: nat)
    requires IsPowerOfTwo(p)
    ensures And(x, p - 1) == x % p
  {
    if p == 1 {
      Unique(x, 1, x, 0);
    } else {
      var h := p / 2;
      MaskIsRemainder(x / 2, h);
      assert (p - 1) / 2 == h - 1 && (p - 1) % 2 == 1;
      HalfRemainder(x, h);
    }
  }

  lemma {:induction false} HalfRemainder(x: nat, h: nat)
    requires h > 0
    ensures x % (2 * h) == 2 * (x / 2 % h) + x % 2
  {
    var q, r := x / 2 / h, x / 2 % h;
    assert x == 2 * (q * h + r) + x % 2;
    assert 2 * (q * h) == q * (2 * h);
    Unique(x, 2 * h, q, 2 * r + x % 2);
  }
}
