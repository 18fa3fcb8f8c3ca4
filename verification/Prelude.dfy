/** Small value types and arithmetic shared by every module. */
module Prelude {
  datatype Option<+T> = None | Some(value: T)

  function Max(a: real, b: real): real {
    if a >= b then a else b
  }

  function Min(a: real, b: real): real {
    if a <= b then a else b
  }

  function Abs(a: real): real {
    if a >= 0.0 then a else -a
  }

  /** The built-in sum of a list of prices. */
  function Sum(xs: seq<real>): real {
    if xs == [] then 0.0 else Sum(xs[..|xs| - 1]) + xs[|xs| - 1]
  }

  function Mean(xs: seq<real>): real
    requires xs != []
  {
    Sum(xs) / |xs| as real
  }

  function SumInt(xs: seq<int>): int {
    if xs == [] then 0 else SumInt(xs[..|xs| - 1]) + xs[|xs| - 1]
  }

  /** The largest element. */
  function MaxOf(xs: seq<real>): real
    requires xs != []
  {
    if |xs| == 1 then xs[0] else Max(MaxOf(xs[..|xs| - 1]), xs[|xs| - 1])
  }

  /** The smallest element. */
  function MinOf(xs: seq<real>): real
    requires xs != []
  {
    if |xs| == 1 then xs[0] else Min(MinOf(xs[..|xs| - 1]), xs[|xs| - 1])
  }

  /** One vote for a condition that holds. */
  function One(b: bool): nat {
    if b then 1 else 0
  }

  lemma {:induction false} SumConcat(xs: seq<real>, ys: seq<real>)
    ensures Sum(xs + ys) == Sum(xs) + Sum(ys)
  {
    if ys == [] {
      assert xs + ys == xs;
    } else {
      SumConcat(xs, ys[..|ys| - 1]);
      assert (xs + ys)[..|xs + ys| - 1] == xs + ys[..|ys| - 1];
    }
  }

  lemma {:induction false} SumIntConcat(xs: seq<int>, ys: seq<int>)
    ensures SumInt(xs + ys) == SumInt(xs) + SumInt(ys)
  {
    if ys == [] {
      assert xs + ys == xs;
    } else {
      SumIntConcat(xs, ys[..|ys| - 1]);
      assert (xs + ys)[..|xs + ys| - 1] == xs + ys[..|ys| - 1];
    }
  }

  /** Sliding a window one place right adds the new element and drops the oldest. */
  lemma SumSlide(xs: seq<real>, lo: nat, hi: nat)
    requires lo <= hi < |xs|
    ensures Sum(xs[lo + 1..hi + 1]) == Sum(xs[lo..hi]) + xs[hi] - xs[lo]
  {
    assert xs[lo..hi + 1] == [xs[lo]] + xs[lo + 1..hi + 1];
    SumConcat([xs[lo]], xs[lo + 1..hi + 1]);
    assert [xs[lo]][..0] == [];
    assert Sum([xs[lo]]) == xs[lo];
    assert xs[lo..hi + 1][..hi - lo] == xs[lo..hi];
  }

  /** ys is xs seen in a mirror: every price p becomes level - p. */
  ghost predicate Mirror(xs: seq<real>, ys: seq<real>, level: real) {
    |xs| == |ys| && forall i :: 0 <= i < |xs| ==> ys[i] == level - xs[i]
  }

  lemma {:induction false} SumMirror(xs: seq<real>, ys: seq<real>, level: real)
    requires Mirror(xs, ys, level)
    ensures Sum(ys) == level * |xs| as real - Sum(xs)
  {
    if xs != [] {
      var n := |xs| - 1;
      SumMirror(xs[..n], ys[..n], level);
      assert level * (n as real + 1.0) == level * n as real + level;
    }
  }

  /** The largest price becomes the smallest in the mirror. */
  lemma {:induction false} MaxOfMirrors(xs: seq<real>, ys: seq<real>, level: real)
    requires Mirror(xs, ys, level) && xs != []
    ensures MaxOf(ys) == level - MinOf(xs)
    ensures MinOf(ys) == level - MaxOf(xs)
  {
    if |xs| > 1 {
      MaxOfMirrors(xs[..|xs| - 1], ys[..|ys| - 1], level);
    }
  }

  lemma {:induction false} MaxOfIsLargest(xs: seq<real>)
    requires xs != []
    ensures MaxOf(xs) in xs && forall i :: 0 <= i < |xs| ==> xs[i] <= MaxOf(xs)
    ensures MinOf(xs) in xs && forall i :: 0 <= i < |xs| ==> MinOf(xs) <= xs[i]
  {
    if |xs| > 1 {
      MaxOfIsLargest(xs[..|xs| - 1]);
    }
  }

  /** The mean mirrors with the values. */
  lemma MeanMirror(xs: seq<real>, ys: seq<real>, level: real)
    requires Mirror(xs, ys, level) && |xs| >= 1
    ensures Mean(ys) == level - Mean(xs)
  {
    SumMirror(xs, ys, level);
    MirrorQuotient(Sum(ys), Sum(xs), |xs| as real, level);
  }

  lemma MirrorQuotient(t: real, s: real, m: real, level: real)
    requires m > 0.0 && t == level * m - s
    ensures t / m == level - s / m
  {
    var q := s / m;
    assert q * m == s;
    assert (level - q) * m == level * m - q * m;
    DivUnique(t, m, level - q);
  }

  lemma {:induction false} SumBounds(xs: seq<real>, lo: real, hi: real)
    requires forall i :: 0 <= i < |xs| ==> lo <= xs[i] <= hi
    ensures lo * |xs| as real <= Sum(xs) <= hi * |xs| as real
  {
    if xs != [] {
      var n := |xs| - 1;
      SumBounds(xs[..n], lo, hi);
      assert lo * (n as real + 1.0) == lo * n as real + lo;
      assert hi * (n as real + 1.0) == hi * n as real + hi;
    }
  }

  /** A sum of non-negative terms is positive exactly when some term is. */
  lemma {:induction false} SumPositive(xs: seq<real>)
    requires forall i :: 0 <= i < |xs| ==> xs[i] >= 0.0
    ensures Sum(xs) >= 0.0
    ensures Sum(xs) > 0.0 <==> exists i :: 0 <= i < |xs| && xs[i] > 0.0
  {
    if xs != [] {
      var n := |xs| - 1;
      SumPositive(xs[..n]);
      assert forall i :: 0 <= i < n ==> xs[..n][i] == xs[i];
    }
  }

  // ---------- Real arithmetic the solver is told about explicitly ----------

  lemma DivUnique(x: real, c: real, q: real)
    requires c != 0.0 && q * c == x
    ensures x / c == q
  {
  }

  lemma MulDiv(a: real, x: real, c: real)
    requires c != 0.0
    ensures a * x / c == a * (x / c)
  {
    var q := x / c;
    assert q * c == x;
    assert (a * q) * c == a * (q * c);
    DivUnique(a * x, c, a * q);
  }

  lemma DivSum(x: real, y: real, c: real)
    requires c != 0.0
    ensures (x + y) / c == x / c + y / c
  {
    var p, q := x / c, y / c;
    assert p * c == x && q * c == y;
    assert (p + q) * c == p * c + q * c;
    DivUnique(x + y, c, p + q);
  }

  lemma DivSign(x: real, c: real)
    requires c > 0.0
    ensures x > 0.0 <==> x / c > 0.0
    ensures x == 0.0 <==> x / c == 0.0
  {
    var q := x / c;
    assert q * c == x;
  }

  lemma MulSign(x: real, y: real)
    requires y > 0.0
    ensures x > 0.0 <==> x * y > 0.0
    ensures x == 0.0 <==> x * y == 0.0
  {
  }

  lemma MulMono(x: real, y: real, c: real)
    requires c >= 0.0 && x <= y
    ensures x * c <= y * c
  {
  }

  lemma MulStrict(x: real, y: real, c: real)
    requires c > 0.0 && x < y
    ensures x * c < y * c
  {
  }

  lemma Complement(x: real, k: real)
    ensures x * (1.0 - k) == x - x * k
  {
  }

  lemma MulFraction(x: real, y: real, k: real)
    requires x <= y && 0.0 <= k <= 1.0
    ensures y * k - x * k <= y - x
  {
    assert (y - x) * (1.0 - k) >= 0.0;
  }

  /** A quotient is at most b when the numerator is at most b times the denominator. */
  lemma DivBound(x: real, c: real, b: real)
    requires c > 0.0 && x <= b * c
    ensures x / c <= b
  {
    var q := x / c;
    assert q * c == x;
    if q > b {
      MulStrict(b, q, c);
    }
  }
}
