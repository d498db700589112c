/** The integral of a rate, characterised by the bounds every interval must obey. */
module Integrals {

  /** `x` lies between the width `w` times `lo` and the width `w` times `hi`. */
  ghost predicate Between(lo: real, hi: real, w: real, x: real) {
    lo * w <= x <= hi * w
  }

  /** The rate stays within `[lo, hi]` on `(a, b]`. */
  ghost predicate Within(rate: real -> real, a: real, b: real, lo: real, hi: real) {
    forall s :: a < s <= b ==> lo <= rate(s) <= hi
  }

  /** `f` accumulates the rate: it starts at 0 and, on every interval, grows by at least the
      width times any lower bound of the rate and at most the width times any upper bound. */
  ghost predicate Accumulates(f: real -> real, rate: real -> real) {
    && f(0.0) == 0.0
    && forall a, b, lo, hi :: 0.0 <= a <= b && Within(rate, a, b, lo, hi) ==> Between(lo, hi, b - a, f(b) - f(a))
  }

  /** Scaling a bound by a non-negative width. */
  lemma ScaleBounds(w: real, lo: real, x: real, hi: real)
    requires w >= 0.0 && lo <= x <= hi
    ensures Between(lo, hi, w, w * x)
  {
  }

  /** Bounds on two adjacent intervals give bounds on their union. */
  lemma GlueBounds(a: real, c: real, b: real, lo: real, hi: real, left: real, right: real)
    requires Between(lo, hi, c - a, left) && Between(lo, hi, b - c, right)
    ensures Between(lo, hi, b - a, left + right)
  {
    assert lo * (c - a) + lo * (b - c) == lo * (b - a);
    assert hi * (c - a) + hi * (b - c) == hi * (b - a);
  }

  lemma Convex(w: real, x: real, y: real, top: real)
    requires 0.0 <= w <= 1.0 && 0.0 <= x <= top && 0.0 <= y <= top
    ensures 0.0 <= (1.0 - w) * x + w * y <= top
  {
    NonNegative(1.0 - w, x);
    NonNegative(w, y);
    NonNegative(1.0 - w, top - x);
    NonNegative(w, top - y);
    assert (1.0 - w) * (top - x) + w * (top - y) == top - ((1.0 - w) * x + w * y);
  }

  lemma NonNegative(x: real, y: real)
    requires x >= 0.0 && y >= 0.0
    ensures x * y >= 0.0
  {
  }

  // ---------------------------------------------------------------------------------------
  // Where the rate is linear, two accumulating functions grow alike

  function Pow2(n: nat): (p: real)
    ensures p >= n as real + 1.0
  {
    if n == 0 then 1.0 else 2.0 * Pow2(n - 1)
  }

  function Abs(x: real): real {
    if x < 0.0 then -x else x
  }

  /** The rate is the line `r0 + k * (s - t0)` on `(a, b]`. */
  ghost predicate LinearOn(rate: real -> real, a: real, b: real, t0: real, r0: real, k: real) {
    forall s :: a < s <= b ==> OnLineAt(rate, t0, r0, k, s)
  }

  ghost predicate OnLineAt(rate: real -> real, t0: real, r0: real, k: real, s: real) {
    rate(s) == r0 + k * (s - t0)
  }

  /** `e` adds up over the two halves of every interval. */
  ghost predicate AddsUp(e: (real, real) -> real) {
    forall x, y :: AddsUpOn(e, x, y)
  }

  ghost predicate AddsUpOn(e: (real, real) -> real, x: real, y: real) {
    e(x, y) == e(x, (x + y) / 2.0) + e((x + y) / 2.0, y)
  }

  /** `e` is at most `k` times the square of the width, inside `[a, b]`. */
  ghost predicate Small(e: (real, real) -> real, k: real, a: real, b: real) {
    forall x, y :: a <= x < y <= b ==> SmallOn(e, k, x, y)
  }

  ghost predicate SmallOn(e: (real, real) -> real, k: real, x: real, y: real) {
    Abs(e(x, y)) <= SquareTimes(k, y - x)
  }

  function SquareTimes(k: real, w: real): real {
    k * (w * w)
  }

  /** Halving the interval `n` times shrinks such a quantity by `2^n`. */
  lemma {:induction false} HalvedSmall(e: (real, real) -> real, k: real, a: real, b: real, n: nat)
    requires AddsUp(e) && Small(e, k, a, b) && a < b
    ensures Abs(e(a, b)) * Pow2(n) <= SquareTimes(k, b - a)
    decreases n
  {
    if n == 0 {
      assert SmallOn(e, k, a, b);
    } else {
      var mid := (a + b) / 2.0;
      assert AddsUpOn(e, a, b);
      HalvedSmall(e, k, a, mid, n - 1);
      HalvedSmall(e, k, mid, b, n - 1);
      QuarterSquares(a, b, k);
      CombineHalves(Abs(e(a, b)), Abs(e(a, mid)), Abs(e(mid, b)), Pow2(n - 1), SquareTimes(k, mid - a));
    }
  }

  lemma QuarterSquares(a: real, b: real, k: real)
    ensures var mid := (a + b) / 2.0;
            && 4.0 * SquareTimes(k, mid - a) == SquareTimes(k, b - a)
            && SquareTimes(k, mid - a) == SquareTimes(k, b - mid)
  {
    var mid, h := (a + b) / 2.0, (b - a) / 2.0;
    assert mid - a == h == b - mid;
    assert (b - a) * (b - a) == 4.0 * (h * h);
  }

  lemma CombineHalves(e: real, e1: real, e2: real, q: real, bound: real)
    requires q > 0.0 && e <= e1 + e2 && e1 * q <= bound && e2 * q <= bound
    ensures e * (2.0 * q) <= 4.0 * bound
  {
    assert e * q <= (e1 + e2) * q == e1 * q + e2 * q;
  }

  lemma DoublingOvertakes(e: real, bound: real) returns (n: nat)
    requires e > 0.0
    ensures e * Pow2(n) > bound
  {
    if bound < 0.0 {
      n := 0;
    } else {
      n := (bound / e).Floor + 1;
      var p := Pow2(n);
      assert p > bound / e;
      assert e * p > e * (bound / e) == bound;
    }
  }

  lemma VanishesOn(e: (real, real) -> real, k: real, a: real, b: real)
    requires AddsUp(e) && Small(e, k, a, b) && a < b
    ensures e(a, b) == 0.0
  {
    if Abs(e(a, b)) > 0.0 {
      var n := DoublingOvertakes(Abs(e(a, b)), SquareTimes(k, b - a));
      HalvedSmall(e, k, a, b, n);
    }
  }

  lemma OnLine(a: real, s: real, b: real, t0: real, r0: real, k: real)
    requires a <= s <= b
    ensures k >= 0.0 ==> r0 + k * (a - t0) <= r0 + k * (s - t0) <= r0 + k * (b - t0)
    ensures k < 0.0 ==> r0 + k * (b - t0) <= r0 + k * (s - t0) <= r0 + k * (a - t0)
  {
    assert k * (s - t0) - k * (a - t0) == k * (s - a) && k * (b - t0) - k * (s - t0) == k * (b - s);
  }

  lemma BothBetween(lo: real, hi: real, w: real, x: real, y: real)
    requires Between(lo, hi, w, x) && Between(lo, hi, w, y)
    ensures Abs(x - y) <= (hi - lo) * w
  {
    assert (hi - lo) * w == hi * w - lo * w;
  }

  lemma LinearMeansWithin(rate: real -> real, a: real, b: real, t0: real, r0: real, k: real)
    returns (lo: real, hi: real)
    requires a < b && LinearOn(rate, a, b, t0, r0, k)
    ensures Within(rate, a, b, lo, hi)
    ensures (hi - lo) * (b - a) == SquareTimes(Abs(k), b - a)
  {
    var u, v := r0 + k * (a - t0), r0 + k * (b - t0);
    lo, hi := if k < 0.0 then v else u, if k < 0.0 then u else v;
    OnLine(a, b, b, t0, r0, k);
    assert hi - lo == if k < 0.0 then u - v else v - u;
    SlopeTimesWidth(a, b, t0, r0, k, hi - lo);
    forall s | a < s <= b
      ensures lo <= rate(s) <= hi
    {
      LinearAt(rate, a, b, t0, r0, k, s);
    }
  }

  lemma LinearAt(rate: real -> real, a: real, b: real, t0: real, r0: real, k: real, s: real)
    requires a < s <= b && LinearOn(rate, a, b, t0, r0, k)
    ensures k >= 0.0 ==> r0 + k * (a - t0) <= rate(s) <= r0 + k * (b - t0)
    ensures k < 0.0 ==> r0 + k * (b - t0) <= rate(s) <= r0 + k * (a - t0)
  {
    OnLine(a, s, b, t0, r0, k);
    assert OnLineAt(rate, t0, r0, k, s);
  }

  lemma SlopeTimesWidth(a: real, b: real, t0: real, r0: real, k: real, gap: real)
    requires gap == (if k < 0.0 then (r0 + k * (a - t0)) - (r0 + k * (b - t0))
                     else (r0 + k * (b - t0)) - (r0 + k * (a - t0))) && a < b
    ensures gap * (b - a) == SquareTimes(Abs(k), b - a)
  {
    var w := b - a;
    assert k * (b - t0) - k * (a - t0) == k * w;
    assert gap == Abs(k) * w;
    Associate(Abs(k), w);
  }

  lemma Associate(k: real, w: real)
    ensures k * w * w == k * (w * w)
  {
  }

  /** By how much more `f` grows than `g`, interval by interval. */
  ghost function GrowthGap(f: real -> real, g: real -> real): (real, real) -> real {
    (x, y) => (f(y) - f(x)) - (g(y) - g(x))
  }

  /** On a linear stretch two accumulating functions differ by at most the slope times the
      square of the width: both lie between the stretch's extreme rates. */
  lemma CoarseError(f: real -> real, g: real -> real, rate: real -> real, a: real, b: real, t0: real, r0: real, k: real)
    requires Accumulates(f, rate) && Accumulates(g, rate)
    requires 0.0 <= a < b && LinearOn(rate, a, b, t0, r0, k)
    ensures SmallOn(GrowthGap(f, g), Abs(k), a, b)
  {
    var lo, hi := LinearMeansWithin(rate, a, b, t0, r0, k);
    BothBetween(lo, hi, b - a, f(b) - f(a), g(b) - g(a));
  }

  lemma GrowthGapIsSmall(f: real -> real, g: real -> real, rate: real -> real, a: real, b: real, t0: real, r0: real,
                         k: real)
    requires Accumulates(f, rate) && Accumulates(g, rate) && 0.0 <= a && LinearOn(rate, a, b, t0, r0, k)
    ensures Small(GrowthGap(f, g), Abs(k), a, b)
  {
    forall x, y | a <= x < y <= b
      ensures SmallOn(GrowthGap(f, g), Abs(k), x, y)
    {
      assert LinearOn(rate, x, y, t0, r0, k);
      CoarseError(f, g, rate, x, y, t0, r0, k);
    }
  }

  lemma SameGrowth(f: real -> real, g: real -> real, rate: real -> real, a: real, b: real, t0: real, r0: real, k: real)
    requires Accumulates(f, rate) && Accumulates(g, rate) && 0.0 <= a <= b && LinearOn(rate, a, b, t0, r0, k)
    ensures f(b) - f(a) == g(b) - g(a)
  {
    var e := GrowthGap(f, g);
    if a < b {
      GrowthGapIsSmall(f, g, rate, a, b, t0, r0, k);
      VanishesOn(e, Abs(k), a, b);
      assert e(a, b) == 0.0;
    }
  }
}
