// mini-ai-accelerator/src/attention_accel.c: softmax attention, plain and tiled.
//
// The exponential is a parameter: any positive function that turns sums into products.  Both
// routines are measured against the textbook softmax average, which subtracts no maximum.
module AttentionAccel {
  import opened Arithmetic
  import opened Sums
  import opened Vectors
  import Tiling

  const RUNNING_MAX_FLOOR: real := -1000000000000000000000000000000.0
  const SUM_LIMIT: real := 0.000000000000001
  const FLASH_TILE_BLOCK: nat := 64

  // ---------------------------------------------------------------- exponentials

  ghost predicate ExpLaw(exp: real -> real, x: real, y: real) {
    exp(x) > 0.0 && exp(x + y) == exp(x) * exp(y)
  }

  ghost predicate IsExp(exp: real -> real) {
    forall x, y :: ExpLaw(exp, x, y)
  }

  lemma ExpZero(exp: real -> real)
    requires IsExp(exp)
    ensures exp(0.0) == 1.0
  {
    var x := 0.0;
    assert ExpLaw(exp, x, x) && x + x == x;
    CancelFactor(exp(x), exp(x), 1.0, exp(x + x), exp(x));
  }

  // ---------------------------------------------------------------- the reference

  function Ones(n: nat): (r: seq<real>)
    ensures |r| == n && forall j :: 0 <= j < n ==> r[j] == 1.0
  {
    seq(n, j => 1.0)
  }

  // Sum over lo <= c < hi of exp(s_c - m) * w_c.
  function Weighted(exp: real -> real, s: seq<real>, m: real, w: seq<real>, lo: nat, hi: nat): real
    requires lo <= hi <= |s| && hi <= |w|
    decreases hi
  {
    if lo == hi then 0.0 else Weighted(exp, s, m, w, lo, hi - 1) + exp(s[hi - 1] - m) * w[hi - 1]
  }

  function ExpSum(exp: real -> real, s: seq<real>, m: real, lo: nat, hi: nat): real
    requires lo <= hi <= |s|
  {
    Weighted(exp, s, m, Ones(|s|), lo, hi)
  }

  // The softmax of the scores s, averaging w: sum exp(s_c) w_c / sum exp(s_c).
  ghost function SoftmaxAverage(exp: real -> real, s: seq<real>, w: seq<real>): real
    requires IsExp(exp) && 0 < |s| <= |w|
  {
    ExpSumPositive(exp, s, 0.0, |s|);
    Weighted(exp, s, 0.0, w, 0, |s|) / ExpSum(exp, s, 0.0, 0, |s|)
  }

  // The scaled dot products of one query with every key.
  function Scores(query: seq<real>, k: Matrix, headDim: nat, scale: real): (r: seq<real>)
    requires |query| == headDim && Rectangular(k, headDim)
    ensures |r| == |k| && forall j :: 0 <= j < |k| ==> r[j] == Dot(query, k[j], headDim) * scale
  {
    seq(|k|, j requires 0 <= j < |k| => Dot(query, k[j], headDim) * scale)
  }

  function ScoreRows(q: Matrix, k: Matrix, headDim: nat, scale: real): (r: Matrix)
    requires Rectangular(q, headDim) && Rectangular(k, headDim)
    ensures |r| == |q| && Rectangular(r, |k|)
  {
    seq(|q|, i requires 0 <= i < |q| => Scores(q[i], k, headDim, scale))
  }

  // ---------------------------------------------------------------- laws of weighted sums

  lemma {:induction false} WeightedSplit(exp: real -> real, s: seq<real>, m: real, w: seq<real>, lo: nat, mid: nat, hi: nat)
    requires lo <= mid <= hi <= |s| && hi <= |w|
    ensures Weighted(exp, s, m, w, lo, hi) == Weighted(exp, s, m, w, lo, mid) + Weighted(exp, s, m, w, mid, hi)
    decreases hi
  {
    if mid < hi {
      WeightedSplit(exp, s, m, w, lo, mid, hi - 1);
    }
  }

  // Moving the reference point from m to n scales the whole sum.
  lemma {:induction false} WeightedRescale(exp: real -> real, s: seq<real>, m: real, n: real, w: seq<real>, lo: nat, hi: nat)
    requires IsExp(exp) && lo <= hi <= |s| && hi <= |w|
    ensures Weighted(exp, s, n, w, lo, hi) == exp(m - n) * Weighted(exp, s, m, w, lo, hi)
    decreases hi
  {
    if lo < hi {
      WeightedRescale(exp, s, m, n, w, lo, hi - 1);
      var x := s[hi - 1];
      assert ExpLaw(exp, m - n, x - m);
      assert (m - n) + (x - m) == x - n;
      ScaleTerm(exp(m - n), Weighted(exp, s, m, w, lo, hi - 1), exp(x - m), w[hi - 1]);
    }
  }

  lemma ScaleTerm(f: real, a: real, e: real, w: real)
    ensures f * a + (f * e) * w == f * (a + e * w)
  {
  }

  lemma {:induction false} ExpSumPositive(exp: real -> real, s: seq<real>, m: real, hi: nat)
    requires IsExp(exp) && hi <= |s|
    ensures ExpSum(exp, s, m, 0, hi) >= 0.0
    ensures hi > 0 ==> ExpSum(exp, s, m, 0, hi) > 0.0
  {
    if hi > 0 {
      ExpSumPositive(exp, s, m, hi - 1);
      assert ExpLaw(exp, s[hi - 1] - m, 0.0);
    }
  }

  // When the reference point is one of the scores the sum of exponentials is at least 1.
  lemma {:induction false} ExpSumAtLeastOne(exp: real -> real, s: seq<real>, m: real, c: nat, hi: nat)
    requires IsExp(exp) && c < hi <= |s| && s[c] == m
    ensures ExpSum(exp, s, m, 0, hi) >= 1.0
  {
    ExpZero(exp);
    ExpSumPositive(exp, s, m, hi - 1);
    if c < hi - 1 {
      ExpSumAtLeastOne(exp, s, m, c, hi - 1);
      assert ExpLaw(exp, s[hi - 1] - m, 0.0);
    }
  }

  // The quotient of weighted sum and sum of exponentials is the same for every reference point.
  lemma QuotientIsSoftmax(exp: real -> real, s: seq<real>, m: real, w: seq<real>)
    requires IsExp(exp) && 0 < |s| <= |w|
    ensures ExpSum(exp, s, m, 0, |s|) > 0.0
    ensures Weighted(exp, s, m, w, 0, |s|) == ExpSum(exp, s, m, 0, |s|) * SoftmaxAverage(exp, s, w)
  {
    ExpSumPositive(exp, s, m, |s|);
    ExpSumPositive(exp, s, 0.0, |s|);
    WeightedRescale(exp, s, 0.0, m, w, 0, |s|);
    WeightedRescale(exp, s, 0.0, m, Ones(|s|), 0, |s|);
    var f, a, b := exp(0.0 - m), Weighted(exp, s, 0.0, w, 0, |s|), ExpSum(exp, s, 0.0, 0, |s|);
    Requotient(a, b);
    assert f * (b * (a / b)) == (f * b) * (a / b);
  }

  // ---------------------------------------------------------------- running maximum

  function Larger(x: real, y: real): real {
    if x > y then x else y
  }

  // The maximum of the first n scores, started from the floor.
  function RunningMax(s: seq<real>, n: nat): real
    requires n <= |s|
  {
    if n == 0 then RUNNING_MAX_FLOOR else Larger(s[n - 1], RunningMax(s, n - 1))
  }

  // The maximum of the scores of one tile.
  function TileMax(s: seq<real>, lo: nat, hi: nat): real
    requires lo < hi <= |s|
    decreases hi
  {
    if hi == lo + 1 then s[lo] else Larger(s[hi - 1], TileMax(s, lo, hi - 1))
  }

  lemma {:induction false} RunningMaxOverTile(s: seq<real>, lo: nat, hi: nat)
    requires lo < hi <= |s|
    ensures RunningMax(s, hi) == Larger(TileMax(s, lo, hi), RunningMax(s, lo))
    decreases hi
  {
    if lo + 1 < hi {
      RunningMaxOverTile(s, lo, hi - 1);
    }
  }

  lemma {:induction false} RunningMaxBounds(s: seq<real>, n: nat)
    requires n <= |s|
    ensures forall c :: 0 <= c < n ==> s[c] <= RunningMax(s, n)
    ensures RunningMax(s, n) >= RUNNING_MAX_FLOOR
    ensures RunningMax(s, n) == RUNNING_MAX_FLOOR || exists c :: 0 <= c < n && s[c] == RunningMax(s, n)
  {
    if n > 0 {
      RunningMaxBounds(s, n - 1);
      if RunningMax(s, n) != RunningMax(s, n - 1) {
        assert s[n - 1] == RunningMax(s, n);
      }
    }
  }

  // ---------------------------------------------------------------- one row of the tiled pass

  // What the tiled pass knows of a row after n columns: the running maximum, the sum of
  // exponentials and the weighted sums, all relative to that maximum.
  ghost predicate RowSeen(exp: real -> real, s: seq<real>, v: Matrix, width: nat, n: nat, m: real, l: real, o: seq<real>)
    requires n <= |s| == |v| && Rectangular(v, width)
  {
    m == RunningMax(s, n) && l == ExpSum(exp, s, m, 0, n) && |o| == width &&
    forall d :: 0 <= d < width ==> o[d] == Weighted(exp, s, m, Column(v, width, d), 0, n)
  }

  lemma RescaleValue(exp: real -> real, s: seq<real>, m: real, n: real, w: seq<real>, lo: nat, hi: nat, x: real)
    requires IsExp(exp) && lo <= hi <= |s| && hi <= |w| && x == Weighted(exp, s, m, w, lo, hi)
    ensures exp(m - n) * x == Weighted(exp, s, n, w, lo, hi)
  {
    WeightedRescale(exp, s, m, n, w, lo, hi);
  }

  // The step of the online softmax: rescaling the sum x seen so far, relative to m, and adding the
  // tile's sum y, relative to t, gives the sum relative to n.
  lemma MergeTile(exp: real -> real, s: seq<real>, w: seq<real>, m: real, t: real, n: real, lo: nat, hi: nat, x: real, y: real)
    requires IsExp(exp) && lo <= hi <= |s| && hi <= |w|
    requires x == Weighted(exp, s, m, w, 0, lo) && y == Weighted(exp, s, t, w, lo, hi)
    ensures exp(m - n) * x + exp(t - n) * y == Weighted(exp, s, n, w, 0, hi)
  {
    hide Weighted;
    WeightedSplit(exp, s, n, w, 0, lo, hi);
    RescaleValue(exp, s, m, n, w, 0, lo, x);
    RescaleValue(exp, s, t, n, w, lo, hi, y);
  }

  // ---------------------------------------------------------------- what the tiled pass returns

  // The value the tiled pass leaves for one row of scores and one column of values.
  ghost function FlashValue(exp: real -> real, s: seq<real>, w: seq<real>): real
    requires |s| <= |w|
  {
    var m := RunningMax(s, |s|);
    var l := ExpSum(exp, s, m, 0, |s|);
    var o := Weighted(exp, s, m, w, 0, |s|);
    if l > SUM_LIMIT then o / l else o
  }

  // A row with a score above the floor is normalised.
  lemma ScoreAboveFloor(exp: real -> real, s: seq<real>, c: nat)
    requires IsExp(exp) && c < |s| && s[c] >= -1000000000000000000000000000000.0
    ensures ExpSum(exp, s, RunningMax(s, |s|), 0, |s|) > SUM_LIMIT
  {
    RunningMaxBounds(s, |s|);
    var m := RunningMax(s, |s|);
    if s[c] == m {
      ExpSumAtLeastOne(exp, s, m, c, |s|);
    } else {
      var k :| 0 <= k < |s| && s[k] == m;
      ExpSumAtLeastOne(exp, s, m, k, |s|);
    }
  }

  lemma NormalisedOrNot(l: real, o: real, a: real)
    requires l > 0.0 && o == l * a
    ensures (if l > SUM_LIMIT then o / l else o) == a <==> (l > SUM_LIMIT || a == 0.0)
  {
    if l > SUM_LIMIT {
      Requotient(o, l);
      CancelFactor(l, o / l, a, o, o);
    } else if o == a && a != 0.0 {
      CancelFactor(a, l, 1.0, o, a);
    }
  }

  // The tiled result equals the softmax average exactly when the row was normalised, or when the
  // average is zero anyway.
  lemma FlashMeetsSoftmax(exp: real -> real, s: seq<real>, w: seq<real>)
    requires IsExp(exp) && 0 < |s| <= |w|
    ensures FlashValue(exp, s, w) == SoftmaxAverage(exp, s, w)
       <==> (ExpSum(exp, s, RunningMax(s, |s|), 0, |s|) > SUM_LIMIT || SoftmaxAverage(exp, s, w) == 0.0)
  {
    var m := RunningMax(s, |s|);
    QuotientIsSoftmax(exp, s, m, w);
    NormalisedOrNot(ExpSum(exp, s, m, 0, |s|), Weighted(exp, s, m, w, 0, |s|), SoftmaxAverage(exp, s, w));
  }

  // With one score above the floor the tiled pass computes exactly softmax attention.
  lemma FlashIsExact(exp: real -> real, s: seq<real>, w: seq<real>, c: nat)
    requires IsExp(exp) && c < |s| <= |w| && s[c] >= RUNNING_MAX_FLOOR
    ensures FlashValue(exp, s, w) == SoftmaxAverage(exp, s, w)
  {
    ScoreAboveFloor(exp, s, c);
    FlashMeetsSoftmax(exp, s, w);
  }

  // One score below the floor: the result is the value scaled by exp(score - floor).
  lemma BelowFloor(exp: real -> real, x: real, w: real)
    requires IsExp(exp) && x < RUNNING_MAX_FLOOR
    ensures SoftmaxAverage(exp, [x], [w]) == w
    ensures FlashValue(exp, [x], [w]) == if exp(x - RUNNING_MAX_FLOOR) > SUM_LIMIT then w else exp(x - RUNNING_MAX_FLOOR) * w
  {
    var s, m := [x], RUNNING_MAX_FLOOR;
    assert RunningMax(s, 1) == m by {
      assert RunningMax(s, 0) == m;
    }
    SingleTerm(exp, x, m, w);
    SingleTerm(exp, x, m, 1.0);
    SingleTerm(exp, x, 0.0, w);
    assert ExpLaw(exp, x - m, 0.0) && ExpLaw(exp, x - 0.0, 0.0);
    OneQuotient(exp(x - 0.0), w);
    OneQuotient(exp(x - m), w);
  }

  lemma SingleTerm(exp: real -> real, x: real, m: real, w: real)
    ensures Weighted(exp, [x], m, [w], 0, 1) == exp(x - m) * w
    ensures ExpSum(exp, [x], m, 0, 1) == exp(x - m)
  {
    assert Weighted(exp, [x], m, [w], 0, 0) == 0.0;
    assert Weighted(exp, [x], m, Ones(1), 0, 0) == 0.0;
  }

  lemma OneQuotient(e: real, w: real)
    requires e > 0.0
    ensures (e * w) / e == w
  {
    Requotient(e * w, e);
    CancelFactor(e, (e * w) / e, w, e * w, e * w);
  }

  // For any exponential of base 2 or more, a positive value under a score 64 or more below the floor
  // is left unnormalised: at most 1e-15 of it is returned.
  lemma FlashDiffers(exp: real -> real, n: nat, w: real)
    requires IsExp(exp) && exp(1.0) >= 2.0 && n >= 64 && w > 0.0
    ensures var s := [-1000000000000000000000000000000.0 - n as real];
      FlashValue(exp, s, [w]) <= 0.000000000000001 * w < w == SoftmaxAverage(exp, s, [w])
  {
    BelowFloor(exp, RUNNING_MAX_FLOOR - n as real, w);
    assert (RUNNING_MAX_FLOOR - n as real) - RUNNING_MAX_FLOOR == -(n as real);
    TinyBelow64(exp, n);
    ScaleDown(exp(-(n as real)), w);
  }

  lemma ScaleDown(e: real, w: real)
    requires e <= SUM_LIMIT && w > 0.0
    ensures e * w <= SUM_LIMIT * w < w
  {
    if e < SUM_LIMIT {
      ProductPositive(SUM_LIMIT - e, w, (SUM_LIMIT - e) * w);
    }
  }

  lemma {:induction false} TinyBelow64(exp: real -> real, n: nat)
    requires IsExp(exp) && exp(1.0) >= 2.0 && n >= 64
    ensures 0.0 < exp(-(n as real)) <= SUM_LIMIT
  {
    assert ExpLaw(exp, -(n as real), 0.0);
    HalfOrLess(exp);
    if n == 64 {
      Halving(exp, -1.0, 0.5, 0.25);
      Halving(exp, -2.0, 0.25, 0.0625);
      Halving(exp, -4.0, 0.0625, 0.00390625);
      Halving(exp, -8.0, 0.00390625, 0.0000152587890625);
      Halving(exp, -16.0, 0.0000152587890625, 0.0000000003);
      Halving(exp, -32.0, 0.0000000003, 0.0000000000000001);
    } else {
      var x := -((n - 1) as real);
      TinyBelow64(exp, n - 1);
      assert ExpLaw(exp, x, -1.0) && x + -1.0 == -(n as real);
      HalfProduct(exp(x), exp(-1.0));
    }
  }

  lemma HalfProduct(a: real, b: real)
    requires a > 0.0 && b <= 0.5
    ensures a * b <= a
  {
    ProductPositive(a, 1.0 - b, a * (1.0 - b));
  }

  lemma HalfOrLess(exp: real -> real)
    requires IsExp(exp) && exp(1.0) >= 2.0
    ensures exp(-1.0) <= 0.5
  {
    var x := -1.0;
    assert ExpLaw(exp, 1.0, x) && ExpLaw(exp, x, x) && 1.0 + x == 0.0;
    ExpZero(exp);
    AtMostHalf(exp(1.0), exp(x));
  }

  lemma AtMostHalf(a: real, b: real)
    requires a >= 2.0 && b > 0.0 && a * b == 1.0
    ensures b <= 0.5
  {
    if b > 0.5 {
      ProductPositive(a - 2.0, b, (a - 2.0) * b);
    }
  }

  // exp(2 x) is the square of exp(x).
  lemma Halving(exp: real -> real, x: real, bound: real, square: real)
    requires IsExp(exp) && exp(x) <= bound && bound * bound <= square
    ensures exp(x + x) <= square
  {
    assert ExpLaw(exp, x, x);
    SquaresOrdered(exp(x), bound);
  }

  lemma SquaresOrdered(a: real, b: real)
    requires 0.0 < a <= b
    ensures a * a <= b * b
  {
    assert a * a <= a * b <= b * b;
  }

  // ---------------------------------------------------------------- the two outputs

  // What plain attention leaves: softmax averages of the value columns.
  ghost predicate IsPlainOutput(exp: real -> real, q: Matrix, k: Matrix, v: Matrix, headDim: nat, scale: real, output: Matrix)
    requires IsExp(exp) && Rectangular(q, headDim) && Rectangular(k, headDim) && Rectangular(v, headDim) && 0 < |k| == |v|
  {
    |output| == |q| && Rectangular(output, headDim) &&
    forall i, d :: 0 <= i < |q| && 0 <= d < headDim ==>
      output[i][d] == SoftmaxAverage(exp, Scores(q[i], k, headDim, scale), Column(v, headDim, d))
  }

  // What tiled attention leaves.
  ghost predicate IsTiledOutput(exp: real -> real, q: Matrix, k: Matrix, v: Matrix, headDim: nat, scale: real, output: Matrix)
    requires Rectangular(q, headDim) && Rectangular(k, headDim) && Rectangular(v, headDim) && |k| == |v|
  {
    |output| == |q| && Rectangular(output, headDim) &&
    forall i, d :: 0 <= i < |q| && 0 <= d < headDim ==>
      output[i][d] == FlashValue(exp, Scores(q[i], k, headDim, scale), Column(v, headDim, d))
  }

  // The guard of the final division.
  ghost predicate Normalised(exp: real -> real, s: seq<real>) {
    ExpSum(exp, s, RunningMax(s, |s|), 0, |s|) > SUM_LIMIT
  }

  // The two routines leave the same output if and only if every row is normalised, but for entries
  // that are zero anyway.
  lemma AttentionsAgreeIff(exp: real -> real, q: Matrix, k: Matrix, v: Matrix, headDim: nat, scale: real, plain: Matrix, tiled: Matrix)
    requires IsExp(exp) && Rectangular(q, headDim) && Rectangular(k, headDim) && Rectangular(v, headDim) && 0 < |k| == |v|
    requires IsPlainOutput(exp, q, k, v, headDim, scale, plain) && IsTiledOutput(exp, q, k, v, headDim, scale, tiled)
    ensures tiled == plain <==>
      forall i, d :: 0 <= i < |q| && 0 <= d < headDim ==> Normalised(exp, Scores(q[i], k, headDim, scale)) || plain[i][d] == 0.0
  {
    hide FlashValue, SoftmaxAverage, IsExp, Scores;
    forall i, d | 0 <= i < |q| && 0 <= d < headDim
      ensures tiled[i][d] == plain[i][d] <==> Normalised(exp, Scores(q[i], k, headDim, scale)) || plain[i][d] == 0.0
    {
      FlashMeetsSoftmax(exp, Scores(q[i], k, headDim, scale), Column(v, headDim, d));
    }
    if forall i, d :: 0 <= i < |q| && 0 <= d < headDim ==> tiled[i][d] == plain[i][d] {
      MatrixEqual(tiled, plain, headDim);
    }
  }

  // With one score of each query at the floor or above, whatever the block shape, the outputs are equal.
  lemma AttentionsAgree(exp: real -> real, q: Matrix, k: Matrix, v: Matrix, headDim: nat, scale: real, plain: Matrix, tiled: Matrix)
    requires IsExp(exp) && Rectangular(q, headDim) && Rectangular(k, headDim) && Rectangular(v, headDim) && 0 < |k| == |v|
    requires IsPlainOutput(exp, q, k, v, headDim, scale, plain) && IsTiledOutput(exp, q, k, v, headDim, scale, tiled)
    requires forall i :: 0 <= i < |q| ==>
      exists c :: 0 <= c < |k| && Scores(q[i], k, headDim, scale)[c] >= -1000000000000000000000000000000.0
    ensures tiled == plain
  {
    hide FlashValue, SoftmaxAverage, IsExp, Scores, IsPlainOutput, IsTiledOutput;
    forall i | 0 <= i < |q| ensures Normalised(exp, Scores(q[i], k, headDim, scale)) {
      var c :| 0 <= c < |k| && Scores(q[i], k, headDim, scale)[c] >= RUNNING_MAX_FLOOR;
      ScoreAboveFloor(exp, Scores(q[i], k, headDim, scale), c);
    }
    AttentionsAgreeIff(exp, q, k, v, headDim, scale, plain, tiled);
  }

  lemma {:induction false} WeightedInRange(exp: real -> real, s: seq<real>, w: seq<real>, lo: real, hi: real, n: nat)
    requires IsExp(exp) && n <= |s| <= |w| && forall j :: 0 <= j < n ==> lo <= w[j] <= hi
    ensures Times(lo, ExpSum(exp, s, 0.0, 0, n)) <= Weighted(exp, s, 0.0, w, 0, n) <= Times(hi, ExpSum(exp, s, 0.0, 0, n))
  {
    if n == 0 {
      assert Times(lo, 0.0) == 0.0 == Times(hi, 0.0);
    } else {
      WeightedInRange(exp, s, w, lo, hi, n - 1);
      var e := exp(s[n - 1] - 0.0);
      assert e > 0.0 by { assert ExpLaw(exp, s[n - 1] - 0.0, 0.0); }
      LastWeighted(exp, s, w, n);
      LastExpSum(exp, s, n);
      hide Times, Weighted, ExpSum, IsExp;
      BetweenTimes(e, lo, w[n - 1], hi, ExpSum(exp, s, 0.0, 0, n - 1), Weighted(exp, s, 0.0, w, 0, n - 1));
    }
  }

  lemma LastExpSum(exp: real -> real, s: seq<real>, n: nat)
    requires 0 < n <= |s|
    ensures ExpSum(exp, s, 0.0, 0, n) == ExpSum(exp, s, 0.0, 0, n - 1) + exp(s[n - 1] - 0.0)
  {
  }

  lemma BetweenTimes(e: real, lo: real, x: real, hi: real, sum: real, total: real)
    requires e > 0.0 && lo <= x <= hi && Times(lo, sum) <= total <= Times(hi, sum)
    ensures Times(lo, sum + e) <= total + Times(e, x) <= Times(hi, sum + e)
  {
    assert Times(lo, sum + e) == Times(lo, sum) + lo * e && Times(hi, sum + e) == Times(hi, sum) + hi * e;
    assert e * (x - lo) >= 0.0 && e * (hi - x) >= 0.0;
  }

  // A softmax average lies between the smallest and the largest of the averaged values.
  lemma AverageInRange(exp: real -> real, s: seq<real>, w: seq<real>, lo: real, hi: real)
    requires IsExp(exp) && 0 < |s| <= |w| && forall j :: 0 <= j < |s| ==> lo <= w[j] <= hi
    ensures lo <= SoftmaxAverage(exp, s, w) <= hi
  {
    ExpSumPositive(exp, s, 0.0, |s|);
    WeightedInRange(exp, s, w, lo, hi, |s|);
    hide Weighted, ExpSum, IsExp;
    QuotientInRange(Weighted(exp, s, 0.0, w, 0, |s|), ExpSum(exp, s, 0.0, 0, |s|), lo, hi);
  }

  lemma QuotientInRange(x: real, y: real, lo: real, hi: real)
    requires y > 0.0 && Times(lo, y) <= x <= Times(hi, y)
    ensures lo <= x / y <= hi
  {
    var q := x / y;
    Requotient(x, y);
    if q < lo {
      ProductPositive(lo - q, y, (lo - q) * y);
    }
    if q > hi {
      ProductPositive(q - hi, y, (q - hi) * y);
    }
  }

  // ---------------------------------------------------------------- plain attention

  // The softmax of a row of scores: exp(s_j) / sum exp(s_c).
  ghost function Softmax(exp: real -> real, s: seq<real>, j: nat): real
    requires IsExp(exp) && j < |s|
  {
    ExpSumPositive(exp, s, 0.0, |s|);
    exp(s[j] - 0.0) / ExpSum(exp, s, 0.0, 0, |s|)
  }

  // Subtracting any reference point first gives the same softmax.
  lemma StableSoftmax(exp: real -> real, s: seq<real>, m: real, j: nat)
    requires IsExp(exp) && j < |s|
    ensures ExpSum(exp, s, m, 0, |s|) > 0.0
    ensures exp(s[j] - m) * (1.0 / ExpSum(exp, s, m, 0, |s|)) == Softmax(exp, s, j)
  {
    ExpSumPositive(exp, s, m, |s|);
    ExpSumPositive(exp, s, 0.0, |s|);
    WeightedRescale(exp, s, 0.0, m, Ones(|s|), 0, |s|);
    assert ExpLaw(exp, 0.0 - m, s[j] - 0.0);
    assert (0.0 - m) + (s[j] - 0.0) == s[j] - m;
    CommonFactor(exp(0.0 - m), exp(s[j] - 0.0), ExpSum(exp, s, 0.0, 0, |s|));
  }

  lemma CommonFactor(f: real, x: real, y: real)
    requires f > 0.0 && y > 0.0 && f * y > 0.0
    ensures (f * x) * (1.0 / (f * y)) == x / y
  {
    var p, q := 1.0 / (f * y), x / y;
    assert (f * y) * p == 1.0;
    assert y * q == x;
    assert (f * x) * p == (f * (y * q)) * p == ((f * y) * p) * q;
  }

  // Averaging with the softmax weights is the softmax average.
  lemma {:induction false} SoftmaxWeighs(exp: real -> real, s: seq<real>, p: seq<real>, w: seq<real>, n: nat)
    requires IsExp(exp) && n <= |s| == |p| && |s| <= |w| && 0 < |s|
    requires forall j :: 0 <= j < |s| ==> p[j] == Softmax(exp, s, j)
    ensures ExpSum(exp, s, 0.0, 0, |s|) > 0.0
    ensures Dot(p, w, n) == Weighted(exp, s, 0.0, w, 0, n) / ExpSum(exp, s, 0.0, 0, |s|)
  {
    ExpSumPositive(exp, s, 0.0, |s|);
    var l := ExpSum(exp, s, 0.0, 0, |s|);
    if n == 0 {
      ZeroQuotient(Weighted(exp, s, 0.0, w, 0, 0), l);
    } else {
      SoftmaxWeighs(exp, s, p, w, n - 1);
      LastProduct(p, w, n);
      LastWeighted(exp, s, w, n);
      hide Dot, Weighted, ExpSum, Times;
      AddQuotients(Weighted(exp, s, 0.0, w, 0, n - 1), exp(s[n - 1] - 0.0), p[n - 1], w[n - 1], l);
    }
  }

  lemma LastProduct(p: seq<real>, w: seq<real>, n: nat)
    requires 0 < n <= |p| && n <= |w|
    ensures Dot(p, w, n) == Dot(p, w, n - 1) + Times(p[n - 1], w[n - 1])
  {
  }

  lemma LastWeighted(exp: real -> real, s: seq<real>, w: seq<real>, n: nat)
    requires 0 < n <= |s| && n <= |w|
    ensures Weighted(exp, s, 0.0, w, 0, n) == Weighted(exp, s, 0.0, w, 0, n - 1) + Times(exp(s[n - 1] - 0.0), w[n - 1])
  {
  }

  lemma ZeroQuotient(x: real, l: real)
    requires l > 0.0 && x == 0.0
    ensures x / l == 0.0
  {
  }

  lemma AddQuotients(a: real, e: real, y: real, w: real, l: real)
    requires l > 0.0 && y == e / l
    ensures a / l + Times(y, w) == (a + Times(e, w)) / l
  {
    var x, sum := a / l, a + e * w;
    Requotient(a, l);
    Requotient(e, l);
    Requotient(sum, l);
    assert l * (x + y * w) == l * x + (l * y) * w;
    CancelFactor(l, x + y * w, sum / l, sum, sum);
  }

  // The same for a whole row, given the reciprocal of the sum.
  lemma StableSoftmaxRow(exp: real -> real, s: seq<real>, m: real, inverse: real)
    requires IsExp(exp) && ExpSum(exp, s, m, 0, |s|) != 0.0 && inverse == 1.0 / ExpSum(exp, s, m, 0, |s|)
    ensures forall j :: 0 <= j < |s| ==> exp(s[j] - m) * inverse == Softmax(exp, s, j)
  {
    forall j | 0 <= j < |s| ensures exp(s[j] - m) * inverse == Softmax(exp, s, j) {
      StableSoftmax(exp, s, m, j);
    }
  }

  // All entries of x outside the given row are as before.
  twostate predicate OtherRowsKept(x: array2<real>, row: nat)
    reads x
  {
    forall i, j :: 0 <= i < x.Length0 && 0 <= j < x.Length1 && i != row ==> x[i, j] == old(x[i, j])
  }

  method RowMax(x: array2<real>, row: nat) returns (maxVal: real, ghost at: nat)
    requires row < x.Length0 && x.Length1 > 0
    ensures at < x.Length1 && x[row, at] == maxVal
    ensures forall j :: 0 <= j < x.Length1 ==> x[row, j] <= maxVal
  {
    maxVal, at := x[row, 0], 0;
    for i := 1 to x.Length1
      invariant 0 <= at < i && x[row, at] == maxVal
      invariant forall j :: 0 <= j < i ==> x[row, j] <= maxVal
    {
      if x[row, i] > maxVal {
        maxVal, at := x[row, i], i;
      }
    }
  }

  // Replaces a row by exp(x - max) and sums it.
  method ExpRow(exp: real -> real, x: array2<real>, row: nat, maxVal: real, ghost s: seq<real>) returns (sum: real)
    requires row < x.Length0 && |s| == x.Length1 && forall j :: 0 <= j < |s| ==> x[row, j] == s[j]
    modifies x
    ensures OtherRowsKept(x, row)
    ensures sum == ExpSum(exp, s, maxVal, 0, |s|)
    ensures forall j :: 0 <= j < |s| ==> x[row, j] == exp(s[j] - maxVal)
  {
    sum := 0.0;
    for i := 0 to x.Length1
      invariant sum == ExpSum(exp, s, maxVal, 0, i)
      invariant forall j :: 0 <= j < |s| ==> x[row, j] == if j < i then exp(s[j] - maxVal) else s[j]
      invariant OtherRowsKept(x, row)
    {
      x[row, i] := exp(x[row, i] - maxVal);
      sum := sum + x[row, i];
    }
  }

  method ScaleRow(x: array2<real>, row: nat, f: real)
    requires row < x.Length0
    modifies x
    ensures OtherRowsKept(x, row)
    ensures forall j :: 0 <= j < x.Length1 ==> x[row, j] == old(x[row, j]) * f
  {
    for i := 0 to x.Length1
      invariant forall j :: 0 <= j < x.Length1 ==> x[row, j] == if j < i then old(x[row, j]) * f else old(x[row, j])
      invariant OtherRowsKept(x, row)
    {
      x[row, i] := x[row, i] * f;
    }
  }

  // The softmax of one row of the score array, in place.  The uniform fallback for a vanishing sum
  // is unreachable: the row maximum contributes exp(0) = 1.
  method SoftmaxStable(exp: real -> real, x: array2<real>, row: nat)
    requires IsExp(exp) && row < x.Length0 && x.Length1 > 0
    modifies x
    ensures OtherRowsKept(x, row)
    ensures forall j :: 0 <= j < x.Length1 ==> x[row, j] == Softmax(exp, old(Mat(x)[row]), j)
  {
    hide Weighted, Softmax;
    ghost var s := Mat(x)[row];
    var maxVal, at := RowMax(x, row);
    var sum := ExpRow(exp, x, row, maxVal, s);
    ExpSumAtLeastOne(exp, s, maxVal, at, |s|);
    if sum > SUM_LIMIT {
      var invSum := 1.0 / sum;
      StableSoftmaxRow(exp, s, maxVal, invSum);
      ScaleRow(x, row, invSum);
    } else {
      assert false;
    }
  }

  // The shapes of queries, keys, values and output agree, and the output overlaps no input.
  ghost predicate Shapes(q: array2<real>, k: array2<real>, v: array2<real>, output: array2<real>) {
    q.Length1 == k.Length1 == v.Length1 == output.Length1 && q.Length0 == output.Length0 && k.Length0 == v.Length0 &&
    output != q && output != k && output != v
  }

  // One scaled dot product.
  method ScoreAt(q: array2<real>, k: array2<real>, i: nat, j: nat, scale: real) returns (score: real)
    requires q.Length1 == k.Length1 && i < q.Length0 && j < k.Length0
    ensures score == Scores(Mat(q)[i], Mat(k), q.Length1, scale)[j]
  {
    var dot := 0.0;
    ghost var a, b := Mat(q)[i], Mat(k)[j];
    for d := 0 to q.Length1
      invariant dot == Dot(a, b, d)
    {
      dot := dot + q[i, d] * k[j, d];
    }
    score := dot * scale;
  }

  // Scores of every query against every key.
  method ScoreMatrix(q: array2<real>, k: array2<real>, scale: real) returns (scores: array2<real>)
    requires q.Length1 == k.Length1
    ensures fresh(scores) && scores.Length0 == q.Length0 && scores.Length1 == k.Length0
    ensures forall i :: 0 <= i < q.Length0 ==> Mat(scores)[i] == Scores(Mat(q)[i], Mat(k), q.Length1, scale)
  {
    hide DotRange;
    scores := new real[q.Length0, k.Length0]((i, j) => 0.0);
    ghost var qm, km := Mat(q), Mat(k);
    for i := 0 to q.Length0
      modifies scores
      invariant forall p, j :: 0 <= p < i && 0 <= j < k.Length0 ==> scores[p, j] == Scores(qm[p], km, q.Length1, scale)[j]
    {
      for j := 0 to k.Length0
        modifies scores
        invariant forall p, c :: 0 <= p < i && 0 <= c < k.Length0 ==> scores[p, c] == Scores(qm[p], km, q.Length1, scale)[c]
        invariant forall c :: 0 <= c < j ==> scores[i, c] == Scores(qm[i], km, q.Length1, scale)[c]
      {
        scores[i, j] := ScoreAt(q, k, i, j, scale);
      }
    }
  }

  // Unmasked attention: every output entry is the softmax average of a column of values.
  method AttentionSingleHead(exp: real -> real, q: array2<real>, k: array2<real>, v: array2<real>, scale: real,
                             output: array2<real>)
    requires IsExp(exp) && Shapes(q, k, v, output)
    modifies output
    ensures k.Length0 == 0 ==> unchanged(output)
    ensures k.Length0 > 0 ==> IsPlainOutput(exp, Mat(q), Mat(k), Mat(v), q.Length1, scale, Mat(output))
  {
    hide DotRange, Weighted, Softmax, SoftmaxAverage;
    if q.Length0 == 0 || k.Length0 == 0 || q.Length1 == 0 {
      return;
    }
    ghost var qm, km, vm := Mat(q), Mat(k), Mat(v);
    var scores := ScoreMatrix(q, k, scale);
    ghost var sm := Mat(scores);
    for i := 0 to q.Length0
      modifies scores
      invariant forall p, j :: 0 <= p < q.Length0 && 0 <= j < k.Length0 ==>
        scores[p, j] == if p < i then Softmax(exp, sm[p], j) else sm[p][j]
    {
      assert Mat(scores)[i] == sm[i];
      SoftmaxStable(exp, scores, i);
    }
    for i := 0 to q.Length0
      modifies output
      invariant forall p, d :: 0 <= p < i && 0 <= d < q.Length1 ==>
        output[p, d] == SoftmaxAverage(exp, sm[p], Column(vm, v.Length1, d))
    {
      OutputRow(exp, scores, v, i, output, sm[i]);
    }
  }

  // One row of the output.
  method OutputRow(exp: real -> real, scores: array2<real>, v: array2<real>, i: nat, output: array2<real>, ghost s: seq<real>)
    requires IsExp(exp) && i < scores.Length0 == output.Length0 && |s| == scores.Length1 == v.Length0 && |s| > 0
    requires output.Length1 == v.Length1 && output != scores && output != v
    requires forall j :: 0 <= j < |s| ==> scores[i, j] == Softmax(exp, s, j)
    modifies output
    ensures OtherRowsKept(output, i)
    ensures forall d :: 0 <= d < v.Length1 ==>
      output[i, d] == SoftmaxAverage(exp, s, Column(Mat(v), v.Length1, d))
  {
    ghost var vm := Mat(v);
    for d := 0 to v.Length1
      invariant OtherRowsKept(output, i)
      invariant forall c :: 0 <= c < d ==> output[i, c] == SoftmaxAverage(exp, s, Column(vm, v.Length1, c))
    {
      output[i, d] := WeightedRow(exp, scores, v, i, d, s);
    }
  }

  // The weighted sum of one column of values by one row of softmax weights.
  method WeightedRow(exp: real -> real, scores: array2<real>, v: array2<real>, i: nat, d: nat, ghost s: seq<real>)
    returns (sum: real)
    requires IsExp(exp) && i < scores.Length0 && d < v.Length1 && |s| == scores.Length1 == v.Length0 && |s| > 0
    requires forall j :: 0 <= j < |s| ==> scores[i, j] == Softmax(exp, s, j)
    ensures sum == SoftmaxAverage(exp, s, Column(Mat(v), v.Length1, d))
  {
    ghost var p, w := Mat(scores)[i], Column(Mat(v), v.Length1, d);
    sum := 0.0;
    for j := 0 to scores.Length1
      invariant sum == Dot(p, w, j)
    {
      sum := sum + scores[i, j] * v[j, d];
    }
    SoftmaxWeighs(exp, s, p, w, |s|);
  }

  // ---------------------------------------------------------------- tiled attention

  method TileScores(q: array2<real>, k: array2<real>, scale: real, mStart: nat, mActual: nat, nStart: nat, nActual: nat,
                    tile: array2<real>, ghost sm: Matrix)
    requires q.Length1 == k.Length1 && tile != q && tile != k
    requires sm == ScoreRows(Mat(q), Mat(k), q.Length1, scale)
    requires mStart + mActual <= q.Length0 && nStart + nActual <= k.Length0
    requires mActual <= tile.Length0 && nActual <= tile.Length1
    modifies tile
    ensures forall r, c :: 0 <= r < mActual && 0 <= c < nActual ==> tile[r, c] == sm[mStart + r][nStart + c]
  {
    hide DotRange;
    for r := 0 to mActual
      invariant forall p, c :: 0 <= p < r && 0 <= c < nActual ==> tile[p, c] == sm[mStart + p][nStart + c]
    {
      for c := 0 to nActual
        invariant forall p, b :: 0 <= p < r && 0 <= b < nActual ==> tile[p, b] == sm[mStart + p][nStart + b]
        invariant forall b :: 0 <= b < c ==> tile[r, b] == sm[mStart + r][nStart + b]
      {
        tile[r, c] := ScoreAt(q, k, mStart + r, nStart + c, scale);
      }
    }
  }

  // The maximum of each row of the tile.
  method TileRowMax(tile: array2<real>, mStart: nat, mActual: nat, nStart: nat, nActual: nat, maxima: array<real>,
                    ghost sm: Matrix, ghost width: nat)
    requires Rectangular(sm, width) && mStart + mActual <= |sm| && nStart + nActual <= width && 0 < nActual
    requires mActual <= tile.Length0 && nActual <= tile.Length1 && mActual <= maxima.Length
    requires forall r, c :: 0 <= r < mActual && 0 <= c < nActual ==> tile[r, c] == sm[mStart + r][nStart + c]
    modifies maxima
    ensures forall r :: 0 <= r < mActual ==> maxima[r] == TileMax(sm[mStart + r], nStart, nStart + nActual)
  {
    for r := 0 to mActual
      invariant forall p :: 0 <= p < r ==> maxima[p] == TileMax(sm[mStart + p], nStart, nStart + nActual)
    {
      var rowMax := tile[r, 0];
      for c := 1 to nActual
        invariant rowMax == TileMax(sm[mStart + r], nStart, nStart + c)
      {
        var v := tile[r, c];
        if v > rowMax {
          rowMax := v;
        }
      }
      maxima[r] := rowMax;
    }
  }

  // Exponentials of one row of the tile, relative to its maximum, and their sum.
  method TileExpRow(exp: real -> real, tile: array2<real>, p: array2<real>, r: nat, nStart: nat, nActual: nat, rowMax: real,
                    ghost s: seq<real>) returns (rowSum: real)
    requires r < tile.Length0 && r < p.Length0 && nActual <= tile.Length1 && nActual <= p.Length1 && tile != p
    requires nStart + nActual <= |s| && forall c :: 0 <= c < nActual ==> tile[r, c] == s[nStart + c]
    modifies p
    ensures OtherRowsKept(p, r)
    ensures forall c :: 0 <= c < nActual ==> p[r, c] == exp(s[nStart + c] - rowMax)
    ensures rowSum == ExpSum(exp, s, rowMax, nStart, nStart + nActual)
  {
    rowSum := 0.0;
    for c := 0 to nActual
      invariant OtherRowsKept(p, r)
      invariant forall b :: 0 <= b < c ==> p[r, b] == exp(s[nStart + b] - rowMax)
      invariant rowSum == ExpSum(exp, s, rowMax, nStart, nStart + c)
    {
      p[r, c] := exp(tile[r, c] - rowMax);
      rowSum := rowSum + p[r, c];
    }
  }

  method TileExp(exp: real -> real, tile: array2<real>, p: array2<real>, mStart: nat, mActual: nat, nStart: nat, nActual: nat,
                 maxima: array<real>, sums: array<real>, ghost sm: Matrix, ghost width: nat)
    requires Rectangular(sm, width) && mStart + mActual <= |sm| && nStart + nActual <= width
    requires mActual <= tile.Length0 && nActual <= tile.Length1 && mActual <= p.Length0 && nActual <= p.Length1
    requires mActual <= maxima.Length && mActual <= sums.Length && tile != p && maxima != sums
    requires forall r, c :: 0 <= r < mActual && 0 <= c < nActual ==> tile[r, c] == sm[mStart + r][nStart + c]
    modifies p, sums
    ensures forall r, c :: 0 <= r < mActual && 0 <= c < nActual ==>
      p[r, c] == exp(sm[mStart + r][nStart + c] - maxima[r])
    ensures forall r :: 0 <= r < mActual ==>
      sums[r] == ExpSum(exp, sm[mStart + r], maxima[r], nStart, nStart + nActual)
  {
    hide Weighted, ExpSum;
    for r := 0 to mActual
      invariant forall a, c :: 0 <= a < r && 0 <= c < nActual ==>
        p[a, c] == exp(sm[mStart + a][nStart + c] - maxima[a])
      invariant forall a :: 0 <= a < r ==> sums[a] == ExpSum(exp, sm[mStart + a], maxima[a], nStart, nStart + nActual)
    {
      sums[r] := TileExpRow(exp, tile, p, r, nStart, nActual, maxima[r], sm[mStart + r]);
    }
  }

  // Sum over the tile's columns of p times one column of values.
  method TileValue(exp: real -> real, p: array2<real>, v: array2<real>, r: nat, d: nat, nStart: nat, nActual: nat,
                   ghost s: seq<real>, ghost rowMax: real) returns (pvSum: real)
    requires r < p.Length0 && nActual <= p.Length1 && d < v.Length1 && nStart + nActual <= v.Length0 == |s|
    requires forall c :: 0 <= c < nActual ==> p[r, c] == exp(s[nStart + c] - rowMax)
    ensures pvSum == Weighted(exp, s, rowMax, Column(Mat(v), v.Length1, d), nStart, nStart + nActual)
  {
    ghost var w := Column(Mat(v), v.Length1, d);
    pvSum := 0.0;
    for c := 0 to nActual
      invariant pvSum == Weighted(exp, s, rowMax, w, nStart, nStart + c)
    {
      pvSum := pvSum + p[r, c] * v[nStart + c, d];
    }
  }

  // One rescale-and-add of the online softmax.
  method Rescale(exp: real -> real, expDiffOld: real, x: real, expDiffNew: real, y: real, ghost s: seq<real>, ghost w: seq<real>,
                 ghost mOld: real, ghost rowMax: real, ghost mNew: real, ghost lo: nat, ghost hi: nat) returns (z: real)
    requires IsExp(exp) && lo <= hi <= |s| && hi <= |w|
    requires expDiffOld == exp(mOld - mNew) && expDiffNew == exp(rowMax - mNew)
    requires x == Weighted(exp, s, mOld, w, 0, lo) && y == Weighted(exp, s, rowMax, w, lo, hi)
    ensures z == Weighted(exp, s, mNew, w, 0, hi)
  {
    z := expDiffOld * x + expDiffNew * y;
    MergeTile(exp, s, w, mOld, rowMax, mNew, lo, hi, x, y);
  }

  // Rescales the output row of query g from reference mOld to mNew and adds the tile's values.
  method RescaleOutput(exp: real -> real, p: array2<real>, v: array2<real>, r: nat, g: nat, nStart: nat, nActual: nat,
                       expDiffOld: real, expDiffNew: real, output: array2<real>,
                       ghost mOld: real, ghost rowMax: real, ghost mNew: real, ghost s: seq<real>)
    requires expDiffOld == exp(mOld - mNew) && expDiffNew == exp(rowMax - mNew)
    requires IsExp(exp) && r < p.Length0 && nActual <= p.Length1 && nStart + nActual <= v.Length0 == |s|
    requires g < output.Length0 && output.Length1 == v.Length1 && output != p && output != v
    requires forall c :: 0 <= c < nActual ==> p[r, c] == exp(s[nStart + c] - rowMax)
    requires forall d :: 0 <= d < v.Length1 ==>
      output[g, d] == Weighted(exp, s, mOld, Column(Mat(v), v.Length1, d), 0, nStart)
    modifies output
    ensures OtherRowsKept(output, g)
    ensures forall d :: 0 <= d < v.Length1 ==>
      output[g, d] == Weighted(exp, s, mNew, Column(Mat(v), v.Length1, d), 0, nStart + nActual)
  {
    hide Weighted;
    ghost var vm := Mat(v);
    for d := 0 to v.Length1
      invariant OtherRowsKept(output, g)
      invariant forall c :: d <= c < v.Length1 ==>
        output[g, c] == Weighted(exp, s, mOld, Column(vm, v.Length1, c), 0, nStart)
      invariant forall c :: 0 <= c < d ==>
        output[g, c] == Weighted(exp, s, mNew, Column(vm, v.Length1, c), 0, nStart + nActual)
    {
      var pvSum := TileValue(exp, p, v, r, d, nStart, nActual, s, rowMax);
      output[g, d] := Rescale(exp, expDiffOld, output[g, d], expDiffNew, pvSum,
                              s, Column(vm, v.Length1, d), mOld, rowMax, mNew, nStart, nStart + nActual);
    }
  }

  // Merges row r of the tile into the running statistics and output of query g.
  method UpdateRow(exp: real -> real, p: array2<real>, v: array2<real>, r: nat, g: nat, nStart: nat, nActual: nat,
                   rowMax: real, rowSum: real, m: array<real>, l: array<real>, output: array2<real>, ghost s: seq<real>)
    requires IsExp(exp) && r < p.Length0 && 0 < nActual <= p.Length1 && nStart + nActual <= v.Length0 == |s|
    requires g < output.Length0 == m.Length == l.Length && output.Length1 == v.Length1
    requires output != p && output != v && m != l
    requires rowMax == TileMax(s, nStart, nStart + nActual)
    requires rowSum == ExpSum(exp, s, rowMax, nStart, nStart + nActual)
    requires forall c :: 0 <= c < nActual ==> p[r, c] == exp(s[nStart + c] - rowMax)
    requires RowSeen(exp, s, Mat(v), v.Length1, nStart, m[g], l[g], Mat(output)[g])
    modifies m, l, output
    ensures RowSeen(exp, s, Mat(v), v.Length1, nStart + nActual, m[g], l[g], Mat(output)[g])
    ensures OtherRowsKept(output, g)
    ensures forall i :: 0 <= i < m.Length && i != g ==> m[i] == old(m[i]) && l[i] == old(l[i])
  {
    var mOld := m[g];
    var mNew := if rowMax > mOld then rowMax else mOld;
    var expDiffOld := exp(mOld - mNew);
    var expDiffNew := exp(rowMax - mNew);
    RunningMaxOverTile(s, nStart, nStart + nActual);
    var lNew := Rescale(exp, expDiffOld, l[g], expDiffNew, rowSum,
                        s, Ones(|s|), mOld, rowMax, mNew, nStart, nStart + nActual);
    assert forall d :: 0 <= d < v.Length1 ==> output[g, d] == Mat(output)[g][d];
    RescaleOutput(exp, p, v, r, g, nStart, nActual, expDiffOld, expDiffNew, output, mOld, rowMax, mNew, s);
    m[g] := mNew;
    l[g] := lNew;
  }

  // Each of the first n rows has seen cols[i] columns.
  ghost predicate Seen(exp: real -> real, sm: Matrix, vm: Matrix, width: nat, cols: seq<nat>,
                       m: seq<real>, l: seq<real>, o: Matrix, n: nat)
    requires Rectangular(sm, |vm|) && Rectangular(vm, width) && |cols| == |sm| == |m| == |l| == |o| && n <= |sm|
  {
    n > 0 ==>
      Seen(exp, sm, vm, width, cols, m, l, o, n - 1) &&
      cols[n - 1] <= |vm| && RowSeen(exp, sm[n - 1], vm, width, cols[n - 1], m[n - 1], l[n - 1], o[n - 1])
  }

  lemma {:induction false} SeenAt(exp: real -> real, sm: Matrix, vm: Matrix, width: nat, cols: seq<nat>,
                                  m: seq<real>, l: seq<real>, o: Matrix, n: nat, i: nat)
    requires Rectangular(sm, |vm|) && Rectangular(vm, width) && |cols| == |sm| == |m| == |l| == |o| && i < n <= |sm|
    requires Seen(exp, sm, vm, width, cols, m, l, o, n)
    ensures cols[i] <= |vm| && RowSeen(exp, sm[i], vm, width, cols[i], m[i], l[i], o[i])
  {
    if i < n - 1 {
      SeenAt(exp, sm, vm, width, cols, m, l, o, n - 1, i);
    }
  }

  lemma {:induction false} SeenUpdated(exp: real -> real, sm: Matrix, vm: Matrix, width: nat, cols: seq<nat>,
                                       m: seq<real>, l: seq<real>, o: Matrix, cols': seq<nat>,
                                       m': seq<real>, l': seq<real>, o': Matrix, n: nat, g: nat)
    requires Rectangular(sm, |vm|) && Rectangular(vm, width) && n <= |sm| && g < |sm|
    requires |cols| == |sm| == |m| == |l| == |o| && |cols'| == |sm| == |m'| == |l'| == |o'|
    requires Seen(exp, sm, vm, width, cols, m, l, o, n)
    requires forall i :: 0 <= i < n && i != g ==>
      cols'[i] == cols[i] && m'[i] == m[i] && l'[i] == l[i] && o'[i] == o[i]
    requires cols'[g] <= |vm| && RowSeen(exp, sm[g], vm, width, cols'[g], m'[g], l'[g], o'[g])
    ensures Seen(exp, sm, vm, width, cols', m', l', o', n)
  {
    if n > 0 {
      SeenUpdated(exp, sm, vm, width, cols, m, l, o, cols', m', l', o', n - 1, g);
    }
  }

  lemma {:induction false} NothingSeen(exp: real -> real, sm: Matrix, vm: Matrix, width: nat, cols: seq<nat>,
                                       m: seq<real>, l: seq<real>, o: Matrix, n: nat)
    requires Rectangular(sm, |vm|) && Rectangular(vm, width) && |cols| == |sm| == |m| == |l| == |o| && n <= |sm|
    requires forall i :: 0 <= i < n ==> cols[i] == 0 && m[i] == RUNNING_MAX_FLOOR && l[i] == 0.0 && |o[i]| == width
    requires forall i, d :: 0 <= i < n && 0 <= d < width ==> o[i][d] == 0.0
    ensures Seen(exp, sm, vm, width, cols, m, l, o, n)
  {
    if n > 0 {
      NothingSeen(exp, sm, vm, width, cols, m, l, o, n - 1);
    }
  }

  // Columns seen once the queries [lo, hi) have reached column n.
  ghost function Advanced(cols: seq<nat>, lo: nat, hi: nat, n: nat): (r: seq<nat>)
    ensures |r| == |cols| && forall i :: 0 <= i < |cols| ==> r[i] == if lo <= i < hi then n else cols[i]
  {
    seq(|cols|, i requires 0 <= i < |cols| => if lo <= i < hi then n else cols[i])
  }

  lemma AdvancedTwice(cols: seq<nat>, lo: nat, hi: nat, n: nat, n': nat)
    ensures Advanced(Advanced(cols, lo, hi, n), lo, hi, n') == Advanced(cols, lo, hi, n')
  {
  }

  // Merges one row of the tile into its query.
  method UpdateQuery(exp: real -> real, p: array2<real>, v: array2<real>, r: nat, g: nat, nStart: nat, nActual: nat,
                     rowMax: real, rowSum: real, m: array<real>, l: array<real>, output: array2<real>,
                     ghost sm: Matrix, ghost vm: Matrix, ghost cols: seq<nat>)
    requires vm == Mat(v) && Rectangular(sm, |vm|)
    requires IsExp(exp) && |sm| == output.Length0 == m.Length == l.Length && g < |sm| && r < p.Length0
    requires 0 < nActual <= p.Length1 && nStart + nActual <= v.Length0
    requires output.Length1 == v.Length1 && output != p && output != v && m != l
    requires rowMax == TileMax(sm[g], nStart, nStart + nActual)
    requires rowSum == ExpSum(exp, sm[g], rowMax, nStart, nStart + nActual)
    requires forall c :: 0 <= c < nActual ==> p[r, c] == exp(sm[g][nStart + c] - rowMax)
    requires |cols| == |sm| && cols[g] == nStart && Seen(exp, sm, vm, v.Length1, cols, m[..], l[..], Mat(output), |sm|)
    modifies m, l, output
    ensures Seen(exp, sm, vm, v.Length1, cols[g := nStart + nActual], m[..], l[..], Mat(output), |sm|)
  {
    hide Seen, RowSeen, Weighted, ExpSum, TileMax;
    ghost var m0, l0, before := m[..], l[..], Mat(output);
    SeenAt(exp, sm, vm, v.Length1, cols, m0, l0, before, |sm|, g);
    UpdateRow(exp, p, v, r, g, nStart, nActual, rowMax, rowSum, m, l, output, sm[g]);
    forall i | 0 <= i < |sm| && i != g ensures Mat(output)[i] == before[i] {}
    SeenUpdated(exp, sm, vm, v.Length1, cols, m0, l0, before, cols[g := nStart + nActual], m[..], l[..], Mat(output), |sm|, g);
  }

  // Merges the tile into every query of the block.
  method UpdateBlock(exp: real -> real, p: array2<real>, v: array2<real>, mStart: nat, mActual: nat, nStart: nat, nActual: nat,
                     maxima: array<real>, sums: array<real>, m: array<real>, l: array<real>, output: array2<real>,
                     ghost sm: Matrix, ghost vm: Matrix, ghost cols: seq<nat>)
    requires vm == Mat(v) && Rectangular(sm, |vm|)
    requires IsExp(exp) && |sm| == output.Length0 == m.Length == l.Length && Rectangular(sm, v.Length0)
    requires mStart + mActual <= |sm| && 0 < nActual <= p.Length1 && nStart + nActual <= v.Length0
    requires mActual <= p.Length0 && mActual <= maxima.Length && mActual <= sums.Length
    requires output.Length1 == v.Length1 && output != p && output != v && m != l && {maxima, sums} !! {m, l}
    requires forall r :: 0 <= r < mActual ==> maxima[r] == TileMax(sm[mStart + r], nStart, nStart + nActual)
    requires forall r :: 0 <= r < mActual ==> sums[r] == ExpSum(exp, sm[mStart + r], maxima[r], nStart, nStart + nActual)
    requires forall r, c :: 0 <= r < mActual && 0 <= c < nActual ==>
      p[r, c] == exp(sm[mStart + r][nStart + c] - maxima[r])
    requires |cols| == |sm| && Seen(exp, sm, vm, v.Length1, cols, m[..], l[..], Mat(output), |sm|)
    requires forall i :: mStart <= i < mStart + mActual ==> cols[i] == nStart
    modifies m, l, output
    ensures Seen(exp, sm, vm, v.Length1, Advanced(cols, mStart, mStart + mActual, nStart + nActual),
                 m[..], l[..], Mat(output), |sm|)
  {
    hide Seen, RowSeen, Weighted, ExpSum, Covered, Tiling.TileCount, ScoreRows, Scores, Column, TileMax, RunningMax, DotRange;
    assert Advanced(cols, mStart, mStart, nStart + nActual) == cols;
    for r := 0 to mActual
      invariant Seen(exp, sm, vm, v.Length1, Advanced(cols, mStart, mStart + r, nStart + nActual),
                     m[..], l[..], Mat(output), |sm|)
    {
      ghost var c := Advanced(cols, mStart, mStart + r, nStart + nActual);
      UpdateQuery(exp, p, v, r, mStart + r, nStart, nActual, maxima[r], sums[r], m, l, output, sm, vm, c);
      assert Advanced(cols, mStart, mStart + r + 1, nStart + nActual) == c[mStart + r := nStart + nActual];
    }
  }

  // One tile: scores, row maxima, exponentials, then the merge into every query of the block.
  method ProcessTile(exp: real -> real, q: array2<real>, k: array2<real>, v: array2<real>, scale: real,
                     mStart: nat, mActual: nat, nStart: nat, nActual: nat,
                     sTile: array2<real>, pTile: array2<real>, m: array<real>, l: array<real>, output: array2<real>,
                     ghost sm: Matrix, ghost vm: Matrix, ghost cols: seq<nat>)
    requires vm == Mat(v)
    requires IsExp(exp) && Shapes(q, k, v, output) && mActual <= FLASH_TILE_BLOCK && 0 < nActual
    requires {sTile, pTile} !! {q, k, v, output} && sTile != pTile && m != l && m.Length == l.Length == q.Length0
    requires sm == ScoreRows(Mat(q), Mat(k), q.Length1, scale)
    requires mStart + mActual <= q.Length0 && nStart + nActual <= k.Length0
    requires mActual <= sTile.Length0 == pTile.Length0 && nActual <= sTile.Length1 == pTile.Length1
    requires |cols| == |sm| && Seen(exp, sm, vm, v.Length1, cols, m[..], l[..], Mat(output), |sm|)
    requires forall i :: mStart <= i < mStart + mActual ==> cols[i] == nStart
    modifies sTile, pTile, m, l, output
    ensures Seen(exp, sm, vm, v.Length1, Advanced(cols, mStart, mStart + mActual, nStart + nActual),
                 m[..], l[..], Mat(output), |sm|)
  {
    TileScores(q, k, scale, mStart, mActual, nStart, nActual, sTile, sm);
    var maxima := new real[FLASH_TILE_BLOCK](i => 0.0);
    TileRowMax(sTile, mStart, mActual, nStart, nActual, maxima, sm, k.Length0);
    var sums := new real[FLASH_TILE_BLOCK](i => 0.0);
    TileExp(exp, sTile, pTile, mStart, mActual, nStart, nActual, maxima, sums, sm, k.Length0);
    UpdateBlock(exp, pTile, v, mStart, mActual, nStart, nActual, maxima, sums, m, l, output, sm, vm, cols);
  }

  // How many of n entries the first i blocks of size b cover.
  function Covered(n: nat, b: nat, i: nat): nat {
    if i * b < n then i * b else n
  }

  // Start and size of block i: it begins where the first i blocks end and is cut off at n.
  method BlockBounds(n: nat, b: nat, i: nat) returns (start: nat, actual: nat)
    requires b > 0 && i < Tiling.TileCount(n, b)
    ensures 0 < actual <= b && start == Covered(n, b, i) && start + actual == Covered(n, b, i + 1) <= n
  {
    hide Tiling.TileCount;
    MulMonotone(i, Tiling.TileCount(n, b) - 1, b);
    Tiling.NextTile(i, b);
    start := i * b;
    actual := if start + b <= n then b else n - start;
  }

  lemma BlocksCover(n: nat, b: nat)
    requires b > 0
    ensures Covered(n, b, 0) == 0 && Covered(n, b, Tiling.TileCount(n, b)) == n
  {
    hide Tiling.TileCount;
  }

  method ClearOutput(output: array2<real>)
    modifies output
    ensures forall i, d :: 0 <= i < output.Length0 && 0 <= d < output.Length1 ==> output[i, d] == 0.0
  {
    for i := 0 to output.Length0
      invariant forall p, d :: 0 <= p < i && 0 <= d < output.Length1 ==> output[p, d] == 0.0
    {
      for d := 0 to output.Length1
        invariant forall p, c :: 0 <= p < i && 0 <= c < output.Length1 ==> output[p, c] == 0.0
        invariant forall c :: 0 <= c < d ==> output[i, c] == 0.0
      {
        output[i, d] := 0.0;
      }
    }
  }

  // All key tiles for one block of queries.
  method ProcessBlock(exp: real -> real, q: array2<real>, k: array2<real>, v: array2<real>, scale: real,
                      mStart: nat, mActual: nat, blockN: nat,
                      sTile: array2<real>, pTile: array2<real>, m: array<real>, l: array<real>, output: array2<real>,
                      ghost sm: Matrix, ghost vm: Matrix, ghost cols: seq<nat>)
    requires vm == Mat(v)
    requires IsExp(exp) && Shapes(q, k, v, output) && mActual <= FLASH_TILE_BLOCK && 0 < blockN
    requires {sTile, pTile} !! {q, k, v, output} && sTile != pTile && m != l && m.Length == l.Length == q.Length0
    requires sm == ScoreRows(Mat(q), Mat(k), q.Length1, scale)
    requires mStart + mActual <= q.Length0
    requires mActual <= sTile.Length0 == pTile.Length0 && blockN == sTile.Length1 == pTile.Length1
    requires |cols| == |sm| && Seen(exp, sm, vm, v.Length1, cols, m[..], l[..], Mat(output), |sm|)
    requires forall i :: mStart <= i < mStart + mActual ==> cols[i] == 0
    modifies sTile, pTile, m, l, output
    ensures Seen(exp, sm, vm, v.Length1, Advanced(cols, mStart, mStart + mActual, k.Length0),
                 m[..], l[..], Mat(output), |sm|)
  {
    hide Seen, RowSeen, Weighted, ExpSum, Covered, Tiling.TileCount, ScoreRows, Scores, Column, TileMax, RunningMax, DotRange;
    var numBlocks := Tiling.TileCount(k.Length0, blockN);
    BlocksCover(k.Length0, blockN);
    assert Advanced(cols, mStart, mStart + mActual, 0) == cols;
    for ni := 0 to numBlocks
      invariant Seen(exp, sm, vm, v.Length1, Advanced(cols, mStart, mStart + mActual, Covered(k.Length0, blockN, ni)),
                     m[..], l[..], Mat(output), |sm|)
    {
      var nStart, nActual := BlockBounds(k.Length0, blockN, ni);
      ghost var seen := Advanced(cols, mStart, mStart + mActual, nStart);
      ProcessTile(exp, q, k, v, scale, mStart, mActual, nStart, nActual, sTile, pTile, m, l, output, sm, vm, seen);
      AdvancedTwice(cols, mStart, mStart + mActual, nStart, nStart + nActual);
    }
  }

  // Divides one finished row by its sum of exponentials, unless that sum vanishes.
  method NormaliseRow(exp: real -> real, l: real, output: array2<real>, r: nat, ghost s: seq<real>, ghost v: Matrix)
    requires r < output.Length0 && |s| == |v| && Rectangular(v, output.Length1)
    requires l == ExpSum(exp, s, RunningMax(s, |s|), 0, |s|)
    requires forall d :: 0 <= d < output.Length1 ==>
      output[r, d] == Weighted(exp, s, RunningMax(s, |s|), Column(v, output.Length1, d), 0, |s|)
    modifies output
    ensures OtherRowsKept(output, r)
    ensures forall d :: 0 <= d < output.Length1 ==> output[r, d] == FlashValue(exp, s, Column(v, output.Length1, d))
  {
    if l > SUM_LIMIT {
      var invL := 1.0 / l;
      for d := 0 to output.Length1
        invariant OtherRowsKept(output, r)
        invariant forall c :: 0 <= c < d ==> output[r, c] == FlashValue(exp, s, Column(v, output.Length1, c))
        invariant forall c :: d <= c < output.Length1 ==> output[r, c] == old(output[r, c])
      {
        Reciprocal(output[r, d], l);
        output[r, d] := output[r, d] * invL;
      }
    }
  }

  lemma Reciprocal(x: real, y: real)
    requires y > 0.0
    ensures x * (1.0 / y) == x / y
  {
  }

  // The final division by the sum of exponentials, skipped for a vanishing sum.
  method Normalise(exp: real -> real, v: array2<real>, l: array<real>, output: array2<real>,
                   ghost m: seq<real>, ghost sm: Matrix, ghost vm: Matrix, ghost cols: seq<nat>)
    requires vm == Mat(v)
    requires |sm| == |m| == l.Length == output.Length0 && Rectangular(sm, v.Length0)
    requires output.Length1 == v.Length1 && output != v
    requires |cols| == |sm| && forall i :: 0 <= i < |sm| ==> cols[i] == v.Length0
    requires Seen(exp, sm, vm, v.Length1, cols, m, l[..], Mat(output), |sm|)
    modifies output
    ensures forall i, d :: 0 <= i < output.Length0 && 0 <= d < v.Length1 ==>
      output[i, d] == FlashValue(exp, sm[i], Column(Mat(v), v.Length1, d))
  {
    ghost var om := Mat(output);
    for r := 0 to output.Length0
      invariant forall i, d :: r <= i < output.Length0 && 0 <= d < v.Length1 ==> output[i, d] == om[i][d]
      invariant forall i, d :: 0 <= i < r && 0 <= d < v.Length1 ==>
        output[i, d] == FlashValue(exp, sm[i], Column(vm, v.Length1, d))
    {
      SeenAt(exp, sm, vm, v.Length1, cols, m, l[..], om, |sm|, r);
      NormaliseRow(exp, l[r], output, r, sm[r], vm);
    }
  }

  // All blocks of queries.
  method ProcessBlocks(exp: real -> real, q: array2<real>, k: array2<real>, v: array2<real>, scale: real,
                       bm: nat, bn: nat, m: array<real>, l: array<real>, output: array2<real>,
                       ghost sm: Matrix, ghost vm: Matrix, ghost none: seq<nat>)
    requires vm == Mat(v)
    requires IsExp(exp) && Shapes(q, k, v, output) && 0 < bm && (bm <= FLASH_TILE_BLOCK || q.Length0 <= FLASH_TILE_BLOCK) && 0 < bn
    requires m != l && m.Length == l.Length == q.Length0
    requires sm == ScoreRows(Mat(q), Mat(k), q.Length1, scale)
    requires |none| == |sm| && forall i :: 0 <= i < |none| ==> none[i] == 0
    requires Seen(exp, sm, vm, v.Length1, none, m[..], l[..], Mat(output), |sm|)
    modifies m, l, output
    ensures Seen(exp, sm, vm, v.Length1, Advanced(none, 0, q.Length0, k.Length0), m[..], l[..], Mat(output), |sm|)
  {
    hide Seen, RowSeen, Weighted, ExpSum, Covered, Tiling.TileCount, ScoreRows, Scores, Column, TileMax, RunningMax, DotRange;
    var sTile := new real[bm, bn]((i, j) => 0.0);
    var pTile := new real[bm, bn]((i, j) => 0.0);
    var numBlocks := Tiling.TileCount(q.Length0, bm);
    BlocksCover(q.Length0, bm);
    assert Advanced(none, 0, 0, k.Length0) == none;
    for mi := 0 to numBlocks
      invariant Seen(exp, sm, vm, v.Length1, Advanced(none, 0, Covered(q.Length0, bm, mi), k.Length0),
                     m[..], l[..], Mat(output), |sm|)
    {
      var mStart, mActual := BlockBounds(q.Length0, bm, mi);
      ghost var cols := Advanced(none, 0, mStart, k.Length0);
      ProcessBlock(exp, q, k, v, scale, mStart, mActual, bn, sTile, pTile, m, l, output, sm, vm, cols);
      assert Advanced(cols, mStart, mStart + mActual, k.Length0) == Advanced(none, 0, mStart + mActual, k.Length0);
    }
  }

  // Tiled attention: for every block shape the value of each output entry is FlashValue of its row
  // of scores; AttentionsAgreeIff says when that is plain attention.  The row buffers hold 64 entries,
  // and no block has more rows than there are queries.
  method FlashAttentionTiled(exp: real -> real, q: array2<real>, k: array2<real>, v: array2<real>, scale: real,
                             output: array2<real>, blockM: int, blockN: int)
    requires IsExp(exp) && Shapes(q, k, v, output) && (blockM <= FLASH_TILE_BLOCK || q.Length0 <= FLASH_TILE_BLOCK)
    modifies output
    ensures IsTiledOutput(exp, Mat(q), Mat(k), Mat(v), q.Length1, scale, Mat(output))
  {
    hide Seen, RowSeen, Weighted, ExpSum, FlashValue, RunningMax, Column, Scores, Dot, DotRange;
    var bm: nat := if blockM <= 0 then FLASH_TILE_BLOCK else blockM;
    var bn: nat := if blockN <= 0 then FLASH_TILE_BLOCK else blockN;
    ghost var qm, km, vm := Mat(q), Mat(k), Mat(v);
    ghost var sm := ScoreRows(qm, km, q.Length1, scale);
    ClearOutput(output);
    var m := new real[q.Length0](i => RUNNING_MAX_FLOOR);
    var l := new real[q.Length0](i => 0.0);
    ghost var none := seq(q.Length0, i => 0);
    NothingSeen(exp, sm, vm, v.Length1, none, m[..], l[..], Mat(output), |sm|);
    ProcessBlocks(exp, q, k, v, scale, bm, bn, m, l, output, sm, vm, none);
    Normalise(exp, v, l, output, m[..], sm, vm, Advanced(none, 0, q.Length0, k.Length0));
  }
}
