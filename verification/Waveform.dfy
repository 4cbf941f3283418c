/** The capture-sanity accumulator: integer sums of one window, one sample at a time. */
module Waveform {
  import opened Bytes

  const SATURATION_ABS: int := 32_700
  const I32_MAX: int := 0x7FFF_FFFF
  const I32_MIN: int := -0x8000_0000

  function SumOfSquares(s: seq<Sample>): (r: nat) {
    if s == [] then 0
    else
      var x: int := s[|s| - 1];
      SumOfSquares(s[..|s| - 1]) + x * x
  }

  function Square(x: int): (r: nat) {
    x * x
  }

  function Product(x: int, y: int): int {
    x * y
  }

  /** Products of neighbours. */
  function LagSum(s: seq<Sample>): int {
    if |s| < 2 then 0
    else
      var x: int, y: int := s[|s| - 1], s[|s| - 2];
      LagSum(s[..|s| - 1]) + x * y
  }

  predicate Clipped(x: int) {
    x >= SATURATION_ABS || x <= -SATURATION_ABS
  }

  function Saturated(s: seq<Sample>): (n: nat)
    ensures n <= |s|
  {
    if s == [] then 0
    else Saturated(s[..|s| - 1]) + if s[|s| - 1] >= 32_700 || s[|s| - 1] <= -32_700 then 1 else 0
  }

  lemma ProductBound(x: int, y: int)
    ensures 2 * Product(x, y) <= Square(x) + Square(y) && -(2 * Product(x, y)) <= Square(x) + Square(y)
  {
    var d, e := x - y, x + y;
    assert d * d >= 0 && d * d == Square(x) - 2 * Product(x, y) + Square(y);
    assert e * e >= 0 && e * e == Square(x) + 2 * Product(x, y) + Square(y);
  }

  /** Twice the lag sum stays under twice the squares by at least the last square. */
  lemma {:induction false} LagBelowSquares(s: seq<Sample>)
    requires s != []
    ensures 2 * LagSum(s) <= 2 * SumOfSquares(s) - Square(s[|s| - 1])
    ensures -(2 * LagSum(s)) <= 2 * SumOfSquares(s) - Square(s[|s| - 1])
  {
    var init := s[..|s| - 1];
    assert SumOfSquares(s) == SumOfSquares(init) + Square(s[|s| - 1]);
    assert |s| > 1 ==> LagSum(s) == LagSum(init) + Product(s[|s| - 1], s[|s| - 2]);
    assert |s| == 1 ==> LagSum(s) == SumOfSquares(init) == 0;
    hide Square, Product, SumOfSquares, LagSum;
    if |s| > 1 {
      LagBelowSquares(init);
      ProductBound(s[|s| - 1], s[|s| - 2]);
    }
  }

  /** The normalized lag-1 autocorrelation, before any rounding, lies in [-1, 1]: for every window the
      lag sum never exceeds the sum of squares in magnitude, and both vanish together. */
  lemma AutocorrelationBound(s: seq<Sample>)
    ensures LagSum(s) <= SumOfSquares(s) && -LagSum(s) <= SumOfSquares(s)
    ensures SumOfSquares(s) > 0 ==> -1.0 <= LagSum(s) as real / SumOfSquares(s) as real <= 1.0
  {
    hide SumOfSquares, LagSum, Square;
    if s == [] {
      EmptySums();
    } else {
      LagBelowSquares(s);
    }
    if SumOfSquares(s) > 0 {
      RatioBound(LagSum(s), SumOfSquares(s));
    }
  }

  lemma EmptySums()
    ensures LagSum([]) == SumOfSquares([]) == 0
  {
  }

  lemma RatioBound(a: int, q: nat)
    requires q > 0 && a <= q && -a <= q
    ensures -1.0 <= a as real / q as real <= 1.0
  {
    var x, d := a as real / q as real, q as real;
    assert x * d == a as real;
    assert x > 1.0 ==> x * d > d;
    assert x < -1.0 ==> x * d < -d;
  }

  lemma {:induction false} SquaresBound(s: seq<Sample>)
    ensures SumOfSquares(s) <= |s| * 0x4000_0000
  {
    if s != [] {
      SquaresBound(s[..|s| - 1]);
      SquareFits(s[|s| - 1]);
    }
  }

  /** Both sums fit `i64` for any window shorter than 2^33 samples. */
  lemma SumsFit(s: seq<Sample>)
    requires |s| < 0x2_0000_0000
    ensures 0 <= SumOfSquares(s) < 0x8000_0000_0000_0000
    ensures -0x8000_0000_0000_0000 < LagSum(s) < 0x8000_0000_0000_0000
  {
    hide SumOfSquares, LagSum;
    SquaresBound(s);
    AutocorrelationBound(s);
  }

  lemma SquareFits(x: Sample)
    ensures Square(x) <= 0x4000_0000
  {
    DifferenceOfSquares(32768, x);
    NonNegative(32768 - x, 32768 + x);
  }

  lemma DifferenceOfSquares(a: int, b: int)
    ensures (a - b) * (a + b) == a * a - Square(b)
  {
  }

  lemma NonNegative(p: nat, q: nat)
    ensures p * q >= 0
  {
  }

  /** Extremes of a non-empty window. */
  predicate IsMin(s: seq<Sample>, m: int) {
    (exists i :: 0 <= i < |s| && s[i] == m) && forall i :: 0 <= i < |s| ==> m <= s[i]
  }

  predicate IsMax(s: seq<Sample>, m: int) {
    (exists i :: 0 <= i < |s| && s[i] == m) && forall i :: 0 <= i < |s| ==> s[i] <= m
  }

  lemma ExtremesNext(w: seq<Sample>, x: Sample, min: int, max: int)
    requires if w == [] then min >= x >= max else IsMin(w, min) && IsMax(w, max)
    ensures IsMin(w + [x], Min(min, x)) && IsMax(w + [x], Max(max, x))
  {
    var w' := w + [x];
    assert w'[|w|] == x;
    if w != [] {
      var i :| 0 <= i < |w| && w[i] == min;
      var j :| 0 <= j < |w| && w[j] == max;
      assert w'[i] == min && w'[j] == max;
    }
    assert forall k :: 0 <= k < |w| ==> w'[k] == w[k];
  }

  lemma SumsNext(w: seq<Sample>, x: Sample)
    ensures SumOfSquares(w + [x]) == SumOfSquares(w) + Square(x)
    ensures Saturated(w + [x]) == Saturated(w) + if Clipped(x) then 1 else 0
    ensures LagSum(w + [x]) == if w == [] then 0 else LagSum(w) + Product(x, w[|w| - 1])
  {
    assert (w + [x])[..|w|] == w;
  }

  class WaveformAccum {
    var samples: nat
    var min: int
    var max: int
    var sqSum: int
    var lag1Sum: int
    var saturated: nat
    var prev: int
    ghost var window: seq<Sample>

    ghost predicate Valid()
      reads this
    {
      && samples == |window|
      && sqSum == SumOfSquares(window) && lag1Sum == LagSum(window) && saturated == Saturated(window)
      && (if window == [] then min == I32_MAX && max == I32_MIN && prev == 0
          else IsMin(window, min) && IsMax(window, max) && prev == window[|window| - 1])
    }

    constructor ()
      ensures Valid() && window == []
    {
      samples, min, max, sqSum, lag1Sum, saturated, prev := 0, I32_MAX, I32_MIN, 0, 0, 0, 0;
      window := [];
    }

    /** Fold one sample in: the accumulator is the window's summary, and its lag sum stays bounded. */
    method Push(x: Sample)
      requires Valid()
      modifies this
      ensures Valid() && window == old(window) + [x]
      ensures lag1Sum <= sqSum && -lag1Sum <= sqSum
    {
      hide Square, Product, SumOfSquares, LagSum, Saturated, IsMin, IsMax;
      EmptySums();
      SumsNext(window, x);
      ExtremesNext(window, x, min, max);
      min := Min(min, x);
      max := Max(max, x);
      sqSum := sqSum + Square(x);
      if Clipped(x) {
        saturated := saturated + 1;
      }
      if samples > 0 {
        lag1Sum := lag1Sum + Product(x, prev);
      }
      prev := x;
      samples := samples + 1;
      window := window + [x];
      AutocorrelationBound(window);
    }
  }
}
