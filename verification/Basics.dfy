/** What several of the models share. */
module Basics {

  datatype Option<+T> = None | Some(value: T)

  /** A multiple of n other than zero is at least n away from zero. */
  lemma {:induction false} Multiple(d: int, n: int)
    requires n > 0
    ensures d >= 1 ==> d * n >= n
    ensures d <= -1 ==> d * n <= -n
  {
    if d >= 1 { assert (d - 1) * n >= 0; }
    if d <= -1 { assert (d + 1) * n <= 0; }
  }

  /** Quotient and remainder are the only ones. */
  lemma {:induction false} Unique(x: int, n: int, q: int, r: int)
    requires n > 0 && x == q * n + r && 0 <= r < n
    ensures x / n == q && x % n == r
  {
    var d := x / n - q;
    assert d * n == r - x % n;
    Multiple(d, n);
  }

  lemma {:induction false} SubsetSize(a: set<nat>, b: set<nat>)
    requires a <= b
    ensures |a| <= |b|
  {
    assert b == a + (b - a);
  }
}
