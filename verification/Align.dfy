/** 64-bit wrap-around and rounding to powers of two. */
module Align {
  import opened Types
  import opened Bits

  const TWO_64: nat := 0x1_0000_0000_0000_0000

  predicate Multiple(x: int, a: nat) { a > 0 && x % a == 0 }

  function Wrap(x: int): uint64 { x % TWO_64 }

  ghost predicate IsPow2(a: nat) { exists k: nat :: a == Pow2(k) && k <= 32 }

  /** `x & ~(a - 1)` for a power of two. */
  function Down(x: nat, a: nat): (r: nat)
    requires a > 0
    ensures r <= x < r + a
  {
    x - x % a
  }

  /** PageUp. */
  function PageUp(value: uint64, a: nat): uint64
    requires a > 0
  {
    Down(Wrap(value + a - 1), a)
  }

  lemma ModPlus(x: int, q: int, a: nat)
    requires a > 0
    ensures (x + q * a) % a == x % a
  {
    var r := x % a;
    var k := x / a;
    assert x + q * a == (k + q) * a + r;
    ModUnique(x + q * a, k + q, r, a);
  }

  lemma ModUnique(x: int, q: int, r: int, a: nat)
    requires a > 0 && 0 <= r < a && x == q * a + r
    ensures x % a == r && x / a == q
  {
    var d := x / a - q;
    assert d * a == r - x % a;
    Gap(d, a);
  }

  lemma Gap(d: int, a: nat)
    ensures d >= 1 ==> d * a >= a
    ensures d <= -1 ==> d * a + a <= 0
  {
  }

  /** Two multiples less than one step apart are in order. */
  lemma MultiplesApart(x: int, y: int, a: nat)
    requires a > 0 && Multiple(x, a) && Multiple(y, a) && x < y + a
    ensures x <= y
  {
    var p, q := x / a, y / a;
    assert x == p * a && y == q * a;
    assert (p - q) * a == x - y;
    Gap(p - q, a);
  }

  lemma Divides64(a: nat)
    requires IsPow2(a)
    ensures a > 0 && Multiple(TWO_64, a) && a <= 0x1_0000_0000
  {
    var k: nat :| a == Pow2(k) && k <= 32;
    WordPowers();
    Pow2Sum(64 - k, k);
    Pow2Sum(32 - k, k);
    hide Pow2;
    ModUnique(TWO_64, Pow2(64 - k), 0, a);
    Gap(Pow2(32 - k), a);
  }

  lemma {:induction false} Pow2Grows(j: nat, k: nat)
    requires j < k
    ensures Pow2(j) < Pow2(k)
  {
    if j + 1 < k { Pow2Grows(j, k - 1); }
  }

  /** The larger of two powers of two is a multiple of the smaller. */
  lemma PowersDivide(a: nat, b: nat)
    requires IsPow2(a) && IsPow2(b) && a <= b
    ensures a > 0 && Multiple(b, a)
  {
    var j: nat :| a == Pow2(j) && j <= 32;
    var k: nat :| b == Pow2(k) && k <= 32;
    if j <= k {
      Pow2Sum(k - j, j);
      ModUnique(b, Pow2(k - j), 0, a);
    } else {
      Pow2Grows(k, j);
    }
  }

  lemma MultipleOfMultiple(x: int, b: nat, a: nat)
    requires a > 0 && b > 0 && Multiple(x, b) && Multiple(b, a)
    ensures Multiple(x, a)
  {
    var p, q := x / b, b / a;
    assert x == p * b && b == q * a;
    assert x == (p * q) * a;
    ModUnique(x, p * q, 0, a);
  }

  /** Rounding down commutes with wrapping round 2^64. */
  lemma DownWraps(x: int, a: nat)
    requires a > 0 && Multiple(TWO_64, a)
    ensures Down(Wrap(x), a) == Wrap(x - x % a)
  {
    var w, q := Wrap(x), x / TWO_64;
    var t := TWO_64 / a;
    assert TWO_64 == t * a;
    assert x == w + (q * t) * a by { assert q * TWO_64 == (q * t) * a; }
    ModPlus(w, q * t, a);
    assert x - x % a == q * TWO_64 + (w - w % a);
    ModUnique(x - x % a, q, w - w % a, TWO_64);
  }

  /** Rounding up, between the numbers that matter. */
  lemma UpBounds(x: nat, a: nat)
    requires a > 0 && x + a <= TWO_64
    ensures x <= PageUp(x, a) < x + a && Multiple(PageUp(x, a), a)
  {
    hide Down, Multiple;
    assert Wrap(x + a - 1) == x + a - 1;
    Exact(x + a - 1, a);
  }

  lemma Exact(x: nat, a: nat)
    requires a > 0
    ensures Multiple(Down(x, a), a)
  {
    ModUnique(Down(x, a), x / a, 0, a);
  }

  /** Shifting by a multiple of the page size shifts the rounded values. */
  lemma ShiftDown(x: nat, d: int, a: nat)
    requires a > 0 && Multiple(d, a) && x + d >= 0
    ensures Down(x + d, a) == Down(x, a) + d
  {
    var q := d / a;
    assert d == q * a;
    ModPlus(x, q, a);
  }

  lemma ShiftUp(x: nat, d: int, a: nat)
    requires a > 0 && Multiple(d, a) && x + d >= 0 && x + a <= TWO_64 && x + d + a <= TWO_64
    ensures PageUp(x + d, a) == PageUp(x, a) + d
  {
    hide Down, Multiple;
    assert Wrap(x + a - 1) == x + a - 1 && Wrap(x + d + a - 1) == x + a - 1 + d;
    ShiftDown(x + a - 1, d, a);
  }

  /** Multiples of the page size on either side of a value bracket its rounding. */
  lemma UpWithin(x: nat, bound: nat, a: nat)
    requires a > 0 && x <= bound && Multiple(bound, a) && x + a <= TWO_64
    ensures PageUp(x, a) <= bound
  {
    hide PageUp, Multiple;
    UpBounds(x, a);
    MultiplesApart(PageUp(x, a), bound, a);
  }
}
