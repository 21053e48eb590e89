// Finite sums of products of reals, and matrices, shared by the numeric kernels.
module Vectors {

  // Sum of a[j] * b[j] for lo <= j < hi.
  function DotRange(a: seq<real>, b: seq<real>, lo: nat, hi: nat): real
    requires lo <= hi <= |a| && hi <= |b|
    decreases hi
  {
    if lo == hi then 0.0 else DotRange(a, b, lo, hi - 1) + a[hi - 1] * b[hi - 1]
  }

  // Inner product of the first n components.
  function Dot(a: seq<real>, b: seq<real>, n: nat): real
    requires n <= |a| && n <= |b|
  {
    DotRange(a, b, 0, n)
  }

  function Abs(x: real): real {
    if x < 0.0 then -x else x
  }

  lemma {:induction false} DotSplit(a: seq<real>, b: seq<real>, lo: nat, mid: nat, hi: nat)
    requires lo <= mid <= hi <= |a| && hi <= |b|
    ensures DotRange(a, b, lo, hi) == DotRange(a, b, lo, mid) + DotRange(a, b, mid, hi)
    decreases hi
  {
    if mid < hi {
      DotSplit(a, b, lo, mid, hi - 1);
    }
  }

  lemma {:induction false} DotCongruence(a: seq<real>, b: seq<real>, c: seq<real>, d: seq<real>, lo: nat, hi: nat)
    requires lo <= hi <= |a| && hi <= |b| && hi <= |c| && hi <= |d|
    requires forall j :: lo <= j < hi ==> a[j] == c[j] && b[j] == d[j]
    ensures DotRange(a, b, lo, hi) == DotRange(c, d, lo, hi)
    decreases hi
  {
    if lo < hi {
      DotCongruence(a, b, c, d, lo, hi - 1);
    }
  }

  // A left factor that vanishes on the range contributes nothing.
  lemma {:induction false} DotZero(a: seq<real>, b: seq<real>, lo: nat, hi: nat)
    requires lo <= hi <= |a| && hi <= |b|
    requires forall j :: lo <= j < hi ==> a[j] == 0.0
    ensures DotRange(a, b, lo, hi) == 0.0
    decreases hi
  {
    if lo < hi {
      DotZero(a, b, lo, hi - 1);
    }
  }

  // Linearity in the left factor.
  lemma {:induction false} DotCombine(a: seq<real>, b: seq<real>, f: real, c: seq<real>, x: seq<real>, n: nat)
    requires n <= |a| && n <= |b| && n <= |c| && n <= |x|
    requires forall j :: 0 <= j < n ==> c[j] == a[j] + f * b[j]
    ensures Dot(c, x, n) == Dot(a, x, n) + f * Dot(b, x, n)
  {
    if n > 0 {
      DotCombine(a, b, f, c, x, n - 1);
      assert c[n - 1] * x[n - 1] == a[n - 1] * x[n - 1] + f * (b[n - 1] * x[n - 1]);
      assert f * (Dot(b, x, n - 1) + b[n - 1] * x[n - 1]) == f * Dot(b, x, n - 1) + f * (b[n - 1] * x[n - 1]);
    }
  }

  lemma {:induction false} DotCommutes(a: seq<real>, b: seq<real>, n: nat)
    requires n <= |a| && n <= |b|
    ensures Dot(a, b, n) == Dot(b, a, n)
  {
    if n > 0 {
      DotCommutes(a, b, n - 1);
    }
  }

  function Square(x: real): real {
    x * x
  }

  lemma ProductPositive(x: real, y: real, p: real)
    requires (x > 0.0 && y > 0.0) || (x < 0.0 && y < 0.0)
    requires p == x * y
    ensures p > 0.0
  {
  }

  lemma SquareSign(x: real)
    ensures Square(x) >= 0.0
    ensures x != 0.0 ==> Square(x) > 0.0
  {
    if x != 0.0 {
      ProductPositive(x, x, Square(x));
    }
  }

  // A square added to a non-negative number.
  lemma AddSquare(e: real, x: real)
    requires e >= 0.0
    ensures e + x * x >= 0.0
    ensures x != 0.0 ==> e + x * x > 0.0
  {
    SquareSign(x);
    var s := Square(x);
    assert x != 0.0 ==> e + s > 0.0;
  }

  // Cancels the factor p of two equal products.
  lemma CancelFactor(p: real, x: real, y: real, px: real, py: real)
    requires p != 0.0 && px == p * x && py == p * y && px == py
    ensures x == y
  {
    assert p * (x - y) == 0.0;
  }

  lemma Requotient(x: real, y: real)
    requires y != 0.0
    ensures y * (x / y) == x
  {
  }

  lemma QuotientInUnit(x: real, y: real)
    requires 0.0 <= x <= y && y > 0.0
    ensures 0.0 <= x / y <= 1.0
  {
  }

  type Matrix = seq<seq<real>>

  predicate Rectangular(a: Matrix, width: nat) {
    forall i :: 0 <= i < |a| ==> |a[i]| == width
  }

  // The contents of a two-dimensional array.
  ghost function Mat(a: array2<real>): (r: Matrix)
    reads a
    ensures |r| == a.Length0 && Rectangular(r, a.Length1)
    ensures forall i, j :: 0 <= i < a.Length0 && 0 <= j < a.Length1 ==> r[i][j] == a[i, j]
  {
    seq(a.Length0, i requires 0 <= i < a.Length0 reads a =>
      seq(a.Length1, j requires 0 <= j < a.Length1 reads a => a[i, j]))
  }

  lemma MatrixEqual(a: Matrix, b: Matrix, width: nat)
    requires |a| == |b| && Rectangular(a, width) && Rectangular(b, width)
    requires forall i, j :: 0 <= i < |a| && 0 <= j < width ==> a[i][j] == b[i][j]
    ensures a == b
  {
    forall i | 0 <= i < |a| ensures a[i] == b[i] {}
  }

  function Column(v: Matrix, width: nat, d: nat): (r: seq<real>)
    requires Rectangular(v, width) && d < width
    ensures |r| == |v| && forall j :: 0 <= j < |v| ==> r[j] == v[j][d]
  {
    seq(|v|, j requires 0 <= j < |v| => v[j][d])
  }
}
