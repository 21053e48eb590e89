// lake_test_mini/src/perf_model.c: the ordinary-least-squares trainer.
//
// A sample becomes a row of nine numbers: the intercept 1, the seven features and the measured
// response.  A coefficient vector beta is read as the homogeneous vector beta + [-1], so that the
// product of a row with it is the prediction minus the response, and solving the augmented system
// means lying in its kernel.
module PerfModel {
  import opened Collections
  import opened Sums
  import opened Vectors

  const FEATURES: nat := 8
  const PIVOT_LIMIT: real := 0.000000000001

  datatype PerfSample = PerfSample(
    ipc: real, l1MissRate: real, l2MissRate: real, l3MissRate: real,
    branchMissRate: real, tlbMissRate: real, bwUtilization: real, measuredLatencyMs: real)

  // The regression row of a sample, its response in the last column.
  function Row(s: PerfSample): (r: seq<real>)
    ensures |r| == FEATURES + 1
  {
    [1.0, s.ipc, s.l1MissRate, s.l2MissRate, s.l3MissRate, s.branchMissRate, s.tlbMissRate, s.bwUtilization,
     s.measuredLatencyMs]
  }

  function Rows(samples: seq<PerfSample>): (z: seq<seq<real>>)
    ensures |z| == |samples| && Rectangular(z, FEATURES + 1)
    ensures forall i :: 0 <= i < |z| ==> z[i] == Row(samples[i])
  {
    seq(|samples|, i requires 0 <= i < |samples| => Row(samples[i]))
  }

  // ---------------------------------------------------------------- matrices

  // m rows of m unknowns and one right-hand side.
  predicate Augmented(a: Matrix, m: nat) {
    |a| == m && Rectangular(a, m + 1)
  }

  // Every row of a is orthogonal to b.
  ghost predicate Kernel(a: Matrix, m: nat, b: seq<real>)
    requires Augmented(a, m)
  {
    |b| == m + 1 && forall i :: 0 <= i < m ==> Dot(a[i], b, m + 1) == 0.0
  }

  // beta solves the linear system whose right-hand sides are the last column of a.
  ghost predicate Solves(a: Matrix, m: nat, beta: seq<real>)
    requires Augmented(a, m)
  {
    |beta| == m && Kernel(a, m, beta + [-1.0])
  }

  // Sum over the first n rows of z of column j times column k.
  function Gram(z: Matrix, n: nat, j: nat, k: nat): real
    requires n <= |z| && forall i :: 0 <= i < |z| ==> j < |z[i]| && k < |z[i]|
  {
    if n == 0 then 0.0 else Gram(z, n - 1, j, k) + z[n - 1][j] * z[n - 1][k]
  }

  // The normal equations of z over its first m columns, augmented by column m.
  function Normal(z: Matrix, m: nat): (a: Matrix)
    requires Rectangular(z, m + 1)
    ensures Augmented(a, m)
    ensures forall j, k :: 0 <= j < m && 0 <= k <= m ==> a[j][k] == Gram(z, |z|, j, k)
  {
    seq(m, j requires 0 <= j < m => seq(m + 1, k requires 0 <= k <= m => Gram(z, |z|, j, k)))
  }

  // ---------------------------------------------------------------- elimination as a function

  // The first row of [i, n) whose entry in column i is largest in absolute value.
  function PivotRow(a: Matrix, i: nat, n: nat): (p: nat)
    requires i < n <= |a| && forall r :: 0 <= r < |a| ==> i < |a[r]|
    ensures i <= p < n
    ensures forall r :: i <= r < n ==> Abs(a[r][i]) <= Abs(a[p][i])
  {
    if n == i + 1 then i
    else
      var p := PivotRow(a, i, n - 1);
      if Abs(a[n - 1][i]) > Abs(a[p][i]) then n - 1 else p
  }

  function Swapped(a: Matrix, i: nat, p: nat): Matrix
    requires i < |a| && p < |a|
  {
    a[i := a[p]][p := a[i]]
  }

  // row minus factor times pivot, from column i on.
  function Reduced(row: seq<real>, pivot: seq<real>, i: nat): (r: seq<real>)
    requires i < |row| == |pivot| && pivot[i] != 0.0
    ensures |r| == |row|
  {
    var factor := row[i] / pivot[i];
    seq(|row|, j requires 0 <= j < |row| => if j < i then row[j] else row[j] - factor * pivot[j])
  }

  // All rows below i reduced by row i.
  function Cleared(a: Matrix, m: nat, i: nat): (r: Matrix)
    requires Augmented(a, m) && i < m && a[i][i] != 0.0
    ensures Augmented(r, m)
  {
    seq(m, r requires 0 <= r < m => if r <= i then a[r] else Reduced(a[r], a[i], i))
  }

  // Forward elimination from column i on; None when the best pivot of some column is too small.
  function Eliminated(a: Matrix, m: nat, i: nat): (r: Option<Matrix>)
    requires Augmented(a, m) && i <= m
    ensures r.Some? ==> Augmented(r.value, m)
    decreases |a| - i
  {
    if i == m then Some(a)
    else
      var p := PivotRow(a, i, m);
      if Abs(a[p][i]) < PIVOT_LIMIT then None
      else Eliminated(Cleared(Swapped(a, i, p), m, i), m, i + 1)
  }

  // ---------------------------------------------------------------- elimination keeps the solutions

  // Columns before i are zero below the diagonal and non-zero on it.
  predicate Triangular(a: Matrix, m: nat, i: nat)
    requires Augmented(a, m) && i <= m
  {
    (forall r, c :: 0 <= c < i && c < r < m ==> a[r][c] == 0.0) &&
    (forall c :: 0 <= c < i ==> a[c][c] != 0.0)
  }

  lemma SwapKeepsKernel(a: Matrix, m: nat, i: nat, p: nat, b: seq<real>)
    requires Augmented(a, m) && i < m && p < m
    ensures Augmented(Swapped(a, i, p), m)
    ensures Kernel(a, m, b) <==> Kernel(Swapped(a, i, p), m, b)
  {
    var s := Swapped(a, i, p);
    if |b| == m + 1 {
      assert s[i] == a[p] && s[p] == a[i];
      assert forall r :: 0 <= r < m && r != i && r != p ==> s[r] == a[r];
      assert Kernel(a, m, b) ==> Dot(a[p], b, m + 1) == 0.0 && Dot(a[i], b, m + 1) == 0.0;
      assert Kernel(s, m, b) ==> Dot(s[p], b, m + 1) == 0.0 && Dot(s[i], b, m + 1) == 0.0;
      if Kernel(s, m, b) {
        forall r | 0 <= r < m ensures Dot(a[r], b, m + 1) == 0.0 {
          if r != i && r != p { assert Dot(s[r], b, m + 1) == 0.0; }
        }
      }
    }
  }

  // The entries of a reduced row when both rows vanish before the pivot.
  lemma ReducedEntries(row: seq<real>, pivot: seq<real>, i: nat)
    requires i < |row| == |pivot| && pivot[i] != 0.0
    requires forall j :: 0 <= j < i ==> row[j] == pivot[j] == 0.0
    ensures forall j :: 0 <= j < |row| ==> Reduced(row, pivot, i)[j] == row[j] + (-(row[i] / pivot[i])) * pivot[j]
  {
    var f := row[i] / pivot[i];
    forall j | 0 <= j < |row| ensures Reduced(row, pivot, i)[j] == row[j] + (-f) * pivot[j] {
      if j < i {
        ZeroTimes(-f, pivot[j]);
      } else {
        Subtract(f, pivot[j]);
      }
    }
  }

  // A cleared row against b, given that the pivot row is orthogonal to b.
  lemma ClearedRow(a: Matrix, m: nat, i: nat, r: nat, b: seq<real>)
    requires Augmented(a, m) && i < r < m && a[i][i] != 0.0 && Triangular(a, m, i)
    requires |b| == m + 1 && Dot(a[i], b, m + 1) == 0.0
    ensures Dot(Cleared(a, m, i)[r], b, m + 1) == Dot(a[r], b, m + 1)
  {
    hide DotRange, Dot, Reduced;
    var f := -(a[r][i] / a[i][i]);
    ReducedEntries(a[r], a[i], i);
    DotCombine(a[r], a[i], f, Cleared(a, m, i)[r], b, m + 1);
    ZeroTimes(f, Dot(a[i], b, m + 1));
  }

  lemma ZeroTimes(f: real, x: real)
    requires x == 0.0
    ensures f * x == 0.0
  {
  }

  lemma Subtract(f: real, x: real)
    ensures (-f) * x == -(f * x)
  {
  }

  lemma ClearKeepsKernel(a: Matrix, m: nat, i: nat, b: seq<real>)
    requires Augmented(a, m) && i < m && a[i][i] != 0.0 && Triangular(a, m, i)
    ensures Kernel(a, m, b) <==> Kernel(Cleared(a, m, i), m, b)
  {
    hide DotRange, Dot, Triangular;
    var c := Cleared(a, m, i);
    forall r | 0 <= r <= i ensures c[r] == a[r] {}
    if |b| == m + 1 && Dot(a[i], b, m + 1) == 0.0 {
      forall r | i < r < m ensures Dot(c[r], b, m + 1) == Dot(a[r], b, m + 1) {
        ClearedRow(a, m, i, r, b);
      }
      forall r | 0 <= r < m ensures Dot(c[r], b, m + 1) == Dot(a[r], b, m + 1) {
        if r <= i {
          assert c[r] == a[r];
        }
      }
    }
  }

  lemma ClearTriangular(a: Matrix, m: nat, i: nat)
    requires Augmented(a, m) && i < m && a[i][i] != 0.0 && Triangular(a, m, i)
    ensures Triangular(Cleared(a, m, i), m, i + 1)
  {
    var c := Cleared(a, m, i);
    forall r, k | 0 <= k < i + 1 && k < r < m ensures c[r][k] == 0.0 {
      if k == i {
        assert c[r][i] == a[r][i] - (a[r][i] / a[i][i]) * a[i][i];
      }
    }
  }

  // Elimination changes neither the set of solutions nor what is already triangular.
  lemma {:induction false} EliminationKeepsKernel(a: Matrix, m: nat, i: nat, b: seq<real>)
    requires Augmented(a, m) && i <= m && Triangular(a, m, i) && Eliminated(a, m, i).Some?
    ensures Triangular(Eliminated(a, m, i).value, m, m)
    ensures Kernel(a, m, b) <==> Kernel(Eliminated(a, m, i).value, m, b)
    decreases m - i
  {
    if i < m {
      var p := PivotRow(a, i, m);
      var s := Swapped(a, i, p);
      SwapKeepsKernel(a, m, i, p, b);
      assert s[i] == a[p];
      assert Triangular(s, m, i);
      ClearKeepsKernel(s, m, i, b);
      ClearTriangular(s, m, i);
      EliminationKeepsKernel(Cleared(s, m, i), m, i + 1, b);
    }
  }

  // A row that vanishes before its diagonal entry, against b; p names the diagonal product.
  lemma DiagonalSplit(row: seq<real>, b: seq<real>, k: nat, n: nat, p: real)
    requires k < n <= |row| && n <= |b| && forall j :: 0 <= j < k ==> row[j] == 0.0
    requires p == row[k] * b[k]
    ensures Dot(row, b, n) == p + DotRange(row, b, k + 1, n)
  {
    DotSplit(row, b, 0, k, n);
    DotZero(row, b, 0, k);
    DotSplit(row, b, k, k + 1, n);
    assert DotRange(row, b, k, k + 1) == DotRange(row, b, k, k) + p;
  }

  // A triangular system has at most one solution.
  lemma {:induction false} TriangularUnique(u: Matrix, m: nat, b: seq<real>, c: seq<real>, row: nat)
    requires Augmented(u, m) && Triangular(u, m, m) && Kernel(u, m, b) && Kernel(u, m, c) && b[m] == c[m]
    requires row <= m
    ensures forall j :: row <= j <= m ==> b[j] == c[j]
    decreases m - row
  {
    if row < m {
      hide DotRange, Dot;
      TriangularUnique(u, m, b, c, row + 1);
      var d := u[row][row];
      var pb, pc := d * b[row], d * c[row];
      DiagonalSplit(u[row], b, row, m + 1, pb);
      DiagonalSplit(u[row], c, row, m + 1, pc);
      DotCongruence(u[row], b, u[row], c, row + 1, m + 1);
      assert Dot(u[row], b, m + 1) == 0.0 && Dot(u[row], c, m + 1) == 0.0;
      CancelFactor(d, b[row], c[row], pb, pc);
    }
  }

  // Row j of a triangular system solved for its diagonal unknown, the later ones given.
  function SolvedEntry(row: seq<real>, d: seq<real>, j: nat): real
    requires j < |row| == |d| && row[j] != 0.0
  {
    -(DotRange(row, d, j + 1, |row|) / row[j])
  }

  // The unknowns before i can be chosen so that the rows before i vanish, whatever the others are.
  lemma {:induction false} SolveBefore(a: Matrix, m: nat, i: nat, j: nat, tail: seq<real>) returns (d: seq<real>)
    requires Augmented(a, m) && j <= i <= m && Triangular(a, m, i) && |tail| == m + 1
    ensures |d| == m + 1 && forall c :: i <= c <= m ==> d[c] == tail[c]
    ensures forall r :: j <= r < i ==> Dot(a[r], d, m + 1) == 0.0
    decreases i - j
  {
    if j == i {
      d := tail;
    } else {
      var e := SolveBefore(a, m, i, j + 1, tail);
      hide Dot, DotRange;
      var x := SolvedEntry(a[j], e, j);
      d := e[j := x];
      DotCongruence(a[j], d, a[j], e, j + 1, m + 1);
      DiagonalSplit(a[j], d, j, m + 1, a[j][j] * x);
      Requotient(DotRange(a[j], e, j + 1, m + 1), a[j][j]);
      assert a[j][j] * x == -DotRange(a[j], e, j + 1, m + 1);
      forall r | j + 1 <= r < i ensures Dot(a[r], d, m + 1) == 0.0 {
        LeadingZeros(a[r], d, e, j + 1, m + 1);
      }
    }
  }

  // Entries against leading zeros do not matter.
  lemma LeadingZeros(row: seq<real>, d: seq<real>, e: seq<real>, k: nat, n: nat)
    requires k <= n <= |row| && n <= |d| && n <= |e| && forall j :: 0 <= j < k ==> row[j] == 0.0
    requires forall j :: k <= j < n ==> d[j] == e[j]
    ensures Dot(row, d, n) == Dot(row, e, n)
  {
    DotSplit(row, d, 0, k, n);
    DotSplit(row, e, 0, k, n);
    DotZero(row, d, 0, k);
    DotZero(row, e, 0, k);
    DotCongruence(row, d, row, e, k, n);
  }

  // The last entry of d that is not zero is a one at k.
  predicate EndsWithOne(d: seq<real>, k: nat) {
    k < |d| && d[k] == 1.0 && forall j :: k < j < |d| ==> d[j] == 0.0
  }

  lemma EndProduct(row: seq<real>, d: seq<real>, k: nat, n: nat)
    requires |row| == |d| == n && EndsWithOne(d, k) && forall j :: 0 <= j < k ==> row[j] == 0.0
    ensures Dot(row, d, n) == row[k]
  {
    DiagonalSplit(row, d, k, n, row[k]);
    DotZeroRight(row, d, k + 1, n);
  }

  lemma {:induction false} DotZeroRight(a: seq<real>, b: seq<real>, lo: nat, hi: nat)
    requires lo <= hi <= |a| && hi <= |b| && forall j :: lo <= j < hi ==> b[j] == 0.0
    ensures DotRange(a, b, lo, hi) == 0.0
    decreases hi
  {
    if lo < hi {
      DotZeroRight(a, b, lo, hi - 1);
    }
  }

  // d, with a last non-zero entry of one, is below the pivot limit in every row of a and zero in the first i.
  ghost predicate NearlyDependent(a: Matrix, m: nat, i: nat, d: seq<real>, k: nat)
    requires Augmented(a, m) && i <= m
  {
    |d| == m + 1 && k < m && EndsWithOne(d, k) &&
    (forall r :: 0 <= r < m ==> Abs(Dot(a[r], d, m + 1)) < PIVOT_LIMIT) &&
    forall r :: 0 <= r < i ==> Dot(a[r], d, m + 1) == 0.0
  }

  lemma SmallColumn(a: Matrix, m: nat, i: nat) returns (d: seq<real>)
    requires Augmented(a, m) && i < m && Triangular(a, m, i)
    requires forall r :: i <= r < m ==> Abs(a[r][i]) < PIVOT_LIMIT
    ensures NearlyDependent(a, m, i, d, i)
  {
    hide Dot;
    d := SolveBefore(a, m, i, 0, seq(m + 1, j => if j == i then 1.0 else 0.0));
    forall r | i <= r < m ensures Dot(a[r], d, m + 1) == a[r][i] {
      EndProduct(a[r], d, i, m + 1);
    }
  }

  lemma SwapTriangular(a: Matrix, m: nat, i: nat, p: nat)
    requires Augmented(a, m) && i <= p < m && Triangular(a, m, i)
    ensures Augmented(Swapped(a, i, p), m) && Triangular(Swapped(a, i, p), m, i)
  {
  }

  // What holds of the rows swapped and cleared holds of the rows before.
  lemma UndoStep(a: Matrix, m: nat, i: nat, p: nat, d: seq<real>, k: nat)
    requires Augmented(a, m) && i <= p < m && Triangular(a, m, i)
    requires var s := Swapped(a, i, p);
      Augmented(s, m) && s[i][i] != 0.0 && NearlyDependent(Cleared(s, m, i), m, i + 1, d, k)
    ensures NearlyDependent(a, m, i, d, k)
  {
    hide Dot, EndsWithOne, Abs, Cleared;
    var s := Swapped(a, i, p);
    SwapTriangular(a, m, i, p);
    UnclearRows(s, m, i, d);
    forall r | 0 <= r < m ensures a[r] == s[if r == i then p else if r == p then i else r] {}
  }

  // A refused system has a combination of its first columns, the last of them once, that is below the
  // pivot limit in every row.
  lemma {:induction false} RefusedIsNearlyDependent(a: Matrix, m: nat, i: nat) returns (d: seq<real>, k: nat)
    requires Augmented(a, m) && i <= m && Triangular(a, m, i) && Eliminated(a, m, i).None?
    ensures NearlyDependent(a, m, i, d, k)
    decreases m - i
  {
    hide NearlyDependent, Cleared, Triangular;
    var p := PivotRow(a, i, m);
    if Abs(a[p][i]) < PIVOT_LIMIT {
      k := i;
      d := SmallColumn(a, m, i);
    } else {
      SwapTriangular(a, m, i, p);
      var s := Swapped(a, i, p);
      ClearTriangular(s, m, i);
      d, k := RefusedIsNearlyDependent(Cleared(s, m, i), m, i + 1);
      UndoStep(a, m, i, p, d, k);
    }
  }

  lemma UnclearRows(s: Matrix, m: nat, i: nat, d: seq<real>)
    requires Augmented(s, m) && i < m && s[i][i] != 0.0 && Triangular(s, m, i) && |d| == m + 1
    requires Dot(Cleared(s, m, i)[i], d, m + 1) == 0.0
    ensures forall r :: 0 <= r < m ==> Dot(s[r], d, m + 1) == Dot(Cleared(s, m, i)[r], d, m + 1)
  {
    hide Dot, DotRange, Reduced;
    forall r | 0 <= r < m ensures Dot(s[r], d, m + 1) == Dot(Cleared(s, m, i)[r], d, m + 1) {
      if r > i {
        ClearedRow(s, m, i, r, d);
      }
    }
  }

  // ---------------------------------------------------------------- least squares

  // Sum of (z_i . b)(z_i . c) over the first n rows.
  function Energy(z: Matrix, n: nat, m: nat, b: seq<real>, c: seq<real>): real
    requires n <= |z| && Rectangular(z, m) && |b| == m && |c| == m
  {
    if n == 0 then 0.0 else Energy(z, n - 1, m, b, c) + Dot(z[n - 1], b, m) * Dot(z[n - 1], c, m)
  }

  // Sum over the first n rows of (z_i . b) times column j.
  function Gradient(z: Matrix, n: nat, m: nat, b: seq<real>, j: nat): real
    requires n <= |z| && Rectangular(z, m) && |b| == m && j < m
  {
    if n == 0 then 0.0 else Gradient(z, n - 1, m, b, j) + Dot(z[n - 1], b, m) * z[n - 1][j]
  }

  function GradientRow(z: Matrix, n: nat, m: nat, b: seq<real>): (r: seq<real>)
    requires n <= |z| && Rectangular(z, m) && |b| == m
    ensures |r| == m && forall j :: 0 <= j < m ==> r[j] == Gradient(z, n, m, b, j)
  {
    seq(m, j requires 0 <= j < m => Gradient(z, n, m, b, j))
  }

  function GramRow(z: Matrix, n: nat, m: nat, j: nat): (r: seq<real>)
    requires n <= |z| && Rectangular(z, m) && j < m
    ensures |r| == m && forall k :: 0 <= k < m ==> r[k] == Gram(z, n, j, k)
  {
    seq(m, k requires 0 <= k < m => Gram(z, n, j, k))
  }

  // The sum of squared residuals of a coefficient vector.
  function Ssr(z: Matrix, m: nat, beta: seq<real>): real
    requires Rectangular(z, m + 1) && |beta| == m
  {
    Energy(z, |z|, m + 1, beta + [-1.0], beta + [-1.0])
  }

  // A row of the normal equations applied to b is the gradient in that coordinate.
  lemma {:induction false} GramIsGradient(z: Matrix, n: nat, m: nat, b: seq<real>, j: nat)
    requires n <= |z| && Rectangular(z, m) && |b| == m && j < m
    ensures Dot(GramRow(z, n, m, j), b, m) == Gradient(z, n, m, b, j)
  {
    hide DotRange;
    if n == 0 {
      DotZero(GramRow(z, 0, m, j), b, 0, m);
    } else {
      GramIsGradient(z, n - 1, m, b, j);
      DotCombine(GramRow(z, n - 1, m, j), z[n - 1], z[n - 1][j], GramRow(z, n, m, j), b, m);
    }
  }

  lemma {:induction false} EnergyIsGradient(z: Matrix, n: nat, m: nat, b: seq<real>, c: seq<real>)
    requires n <= |z| && Rectangular(z, m) && |b| == m && |c| == m
    ensures Energy(z, n, m, b, c) == Dot(GradientRow(z, n, m, b), c, m)
  {
    hide DotRange;
    if n == 0 {
      DotZero(GradientRow(z, 0, m, b), c, 0, m);
    } else {
      EnergyIsGradient(z, n - 1, m, b, c);
      DotCombine(GradientRow(z, n - 1, m, b), z[n - 1], Dot(z[n - 1], b, m), GradientRow(z, n, m, b), c, m);
    }
  }

  lemma {:induction false} EnergyOfSum(z: Matrix, n: nat, m: nat, b: seq<real>, d: seq<real>, s: seq<real>)
    requires n <= |z| && Rectangular(z, m) && |b| == m && |d| == m && |s| == m
    requires forall j :: 0 <= j < m ==> s[j] == b[j] + d[j]
    ensures Energy(z, n, m, s, s) == Energy(z, n, m, b, b) + 2.0 * Energy(z, n, m, b, d) + Energy(z, n, m, d, d)
  {
    hide DotRange;
    if n > 0 {
      EnergyOfSum(z, n - 1, m, b, d, s);
      var row := z[n - 1];
      DotCombine(b, d, 1.0, s, row, m);
      DotCommutes(b, row, m); DotCommutes(d, row, m); DotCommutes(s, row, m);
      SquareOfSum(Dot(row, b, m), Dot(row, d, m), Dot(row, s, m));
    }
  }

  lemma SquareOfSum(x: real, y: real, t: real)
    requires t == x + y
    ensures t * t == x * x + 2.0 * (x * y) + y * y
  {
  }

  lemma {:induction false} EnergyNonNegative(z: Matrix, n: nat, m: nat, d: seq<real>)
    requires n <= |z| && Rectangular(z, m) && |d| == m
    ensures Energy(z, n, m, d, d) >= 0.0
    ensures Energy(z, n, m, d, d) == 0.0 ==> forall i :: 0 <= i < n ==> Dot(z[i], d, m) == 0.0
  {
    if n > 0 {
      EnergyNonNegative(z, n - 1, m, d);
      var x := Dot(z[n - 1], d, m);
      AddSquare(Energy(z, n - 1, m, d, d), x);
    }
  }

  function Difference(b: seq<real>, c: seq<real>): (d: seq<real>)
    requires |b| == |c|
    ensures |d| == |b| && forall j :: 0 <= j < |d| ==> d[j] == b[j] - c[j]
  {
    seq(|b|, j requires 0 <= j < |b| => b[j] - c[j])
  }

  // For a solution of the normal equations the residual of any other vector splits into its own
  // residual and the energy of the difference.
  lemma Pythagoras(z: Matrix, m: nat, beta: seq<real>, other: seq<real>)
    requires Rectangular(z, m + 1) && |other| == m && Solves(Normal(z, m), m, beta)
    ensures |beta| == m
    ensures var d := Difference(other + [-1.0], beta + [-1.0]);
            Ssr(z, m, other) == Ssr(z, m, beta) + Energy(z, |z|, m + 1, d, d)
  {
    var b, s := beta + [-1.0], other + [-1.0];
    var d := Difference(s, b);
    EnergyOfSum(z, |z|, m + 1, b, d, s);
    EnergyIsGradient(z, |z|, m + 1, b, d);
    var g := GradientRow(z, |z|, m + 1, b);
    forall j | 0 <= j < m ensures g[j] == 0.0 {
      GramIsGradient(z, |z|, m + 1, b, j);
      assert GramRow(z, |z|, m + 1, j) == Normal(z, m)[j];
    }
    DotZero(g, d, 0, m);
  }

  // Least squares: a solution of the normal equations minimises the squared error.
  lemma SolutionMinimises(z: Matrix, m: nat, beta: seq<real>, other: seq<real>)
    requires Rectangular(z, m + 1) && |other| == m && Solves(Normal(z, m), m, beta)
    ensures Ssr(z, m, beta) <= Ssr(z, m, other)
  {
    Pythagoras(z, m, beta, other);
    EnergyNonNegative(z, |z|, m + 1, Difference(other + [-1.0], beta + [-1.0]));
  }

  // Where elimination succeeds the system has exactly one solution.
  lemma EliminationUnique(a: Matrix, m: nat, beta: seq<real>, other: seq<real>)
    requires Augmented(a, m) && Eliminated(a, m, 0).Some? && Solves(a, m, beta) && Solves(a, m, other)
    ensures beta == other
  {
    var b, c := beta + [-1.0], other + [-1.0];
    EliminationKeepsKernel(a, m, 0, b);
    EliminationKeepsKernel(a, m, 0, c);
    TriangularUnique(Eliminated(a, m, 0).value, m, b, c, 0);
    assert beta == b[..m] && other == c[..m];
  }

  // ... and then the minimiser is strict: any other vector has a larger error.
  lemma MinimumIsStrict(z: Matrix, m: nat, beta: seq<real>, other: seq<real>)
    requires Rectangular(z, m + 1) && |other| == m && Solves(Normal(z, m), m, beta)
    requires Eliminated(Normal(z, m), m, 0).Some? && other != beta
    ensures Ssr(z, m, beta) < Ssr(z, m, other)
  {
    var b, s := beta + [-1.0], other + [-1.0];
    var d := Difference(s, b);
    Pythagoras(z, m, beta, other);
    EnergyNonNegative(z, |z|, m + 1, d);
    if Energy(z, |z|, m + 1, d, d) == 0.0 {
      forall j | 0 <= j < m ensures Dot(Normal(z, m)[j], s, m + 1) == 0.0 {
        assert GramRow(z, |z|, m + 1, j) == Normal(z, m)[j];
        GramIsGradient(z, |z|, m + 1, b, j);
        GramIsGradient(z, |z|, m + 1, s, j);
        SameGradient(z, |z|, m + 1, b, s, d, j);
      }
      EliminationUnique(Normal(z, m), m, beta, other);
    }
  }

  // Vectors whose difference is orthogonal to a row have the same product with it.
  lemma SameDot(row: seq<real>, b: seq<real>, s: seq<real>, d: seq<real>, m: nat)
    requires |row| == |b| == |s| == |d| == m && d == Difference(s, b) && Dot(row, d, m) == 0.0
    ensures Dot(row, s, m) == Dot(row, b, m)
  {
    hide Dot, DotRange;
    DotCombine(b, d, 1.0, s, row, m);
    DotCommutes(b, row, m); DotCommutes(d, row, m); DotCommutes(s, row, m);
  }

  lemma {:induction false} SameGradient(z: Matrix, n: nat, m: nat, b: seq<real>, s: seq<real>, d: seq<real>, j: nat)
    requires n <= |z| && Rectangular(z, m) && |b| == m && |s| == m && |d| == m && j < m
    requires d == Difference(s, b) && forall i :: 0 <= i < n ==> Dot(z[i], d, m) == 0.0
    ensures Gradient(z, n, m, s, j) == Gradient(z, n, m, b, j)
  {
    hide Dot, DotRange;
    if n > 0 {
      SameGradient(z, n - 1, m, b, s, d, j);
      SameDot(z[n - 1], b, s, d, m);
    }
  }

  // Collinear features are always rejected: when some non-trivial combination of the features is
  // zero on every sample, elimination meets a column without a usable pivot.
  lemma CollinearRejected(z: Matrix, m: nat, d: seq<real>, k: nat)
    requires Rectangular(z, m + 1) && |d| == m + 1 && d[m] == 0.0
    requires k < m && d[k] != 0.0
    requires forall i :: 0 <= i < |z| ==> Dot(z[i], d, m + 1) == 0.0
    ensures Eliminated(Normal(z, m), m, 0).None?
  {
    var a := Normal(z, m);
    if Eliminated(a, m, 0).Some? {
      var zero := seq(m + 1, j => 0.0);
      var u := Eliminated(a, m, 0).value;
      forall j | 0 <= j < m
        ensures Dot(a[j], d, m + 1) == 0.0 && Dot(a[j], zero, m + 1) == 0.0
      {
        assert GramRow(z, |z|, m + 1, j) == a[j];
        GramIsGradient(z, |z|, m + 1, d, j);
        SameGradient(z, |z|, m + 1, zero, d, Difference(d, zero), j) by {
          assert Difference(d, zero) == d;
        }
        ZeroGradient(z, |z|, m + 1, zero, j);
        DotCommutes(a[j], zero, m + 1);
        DotZero(zero, a[j], 0, m + 1);
      }
      EliminationKeepsKernel(a, m, 0, d);
      EliminationKeepsKernel(a, m, 0, zero);
      TriangularUnique(u, m, d, zero, 0);
    }
  }

  // And refused features are nearly collinear: some combination of them, the last one taken once, has a
  // product below 1e-12 with every feature.
  lemma RefusedIsNearlyCollinear(z: Matrix, m: nat) returns (d: seq<real>, k: nat)
    requires Rectangular(z, m + 1) && Eliminated(Normal(z, m), m, 0).None?
    ensures |d| == m + 1 && k < m && EndsWithOne(d, k)
    ensures var g := GradientRow(z, |z|, m + 1, d); forall j :: 0 <= j < m ==> Abs(g[j]) < 0.000000000001
  {
    hide Eliminated, Dot, EndsWithOne, Gradient, Abs;
    d, k := RefusedIsNearlyDependent(Normal(z, m), m, 0);
    var g := GradientRow(z, |z|, m + 1, d);
    forall j | 0 <= j < m ensures Abs(g[j]) < 0.000000000001 {
      assert GramRow(z, |z|, m + 1, j) == Normal(z, m)[j];
      GramIsGradient(z, |z|, m + 1, d, j);
    }
  }

  lemma {:induction false} ZeroGradient(z: Matrix, n: nat, m: nat, b: seq<real>, j: nat)
    requires n <= |z| && Rectangular(z, m) && |b| == m && j < m
    requires forall k :: 0 <= k < m ==> b[k] == 0.0
    ensures Gradient(z, n, m, b, j) == 0.0
  {
    if n > 0 {
      ZeroGradient(z, n - 1, m, b, j);
      DotCommutes(z[n - 1], b, m);
      DotZero(b, z[n - 1], 0, m);
    }
  }

  // ---------------------------------------------------------------- coefficient of determination

  function Responses(z: Matrix, n: nat, m: nat): real
    requires n <= |z| && Rectangular(z, m + 1)
  {
    if n == 0 then 0.0 else Responses(z, n - 1, m) + z[n - 1][m]
  }

  function Mean(z: Matrix, m: nat): real
    requires Rectangular(z, m + 1) && |z| > 0
  {
    Responses(z, |z|, m) / (|z| as real)
  }

  // Sum of squared deviations of the first n responses from c.
  function Deviations(z: Matrix, n: nat, m: nat, c: real): (r: real)
    requires n <= |z| && Rectangular(z, m + 1)
    ensures r >= 0.0
  {
    if n == 0 then 0.0 else
      var x := z[n - 1][m] - c;
      assert x * x >= 0.0;
      Deviations(z, n - 1, m, c) + x * x
  }

  // The mean alone, as a coefficient vector.
  function Intercept(m: nat, c: real): (r: seq<real>)
    requires m > 0
    ensures |r| == m && r[0] == c && forall j :: 1 <= j < m ==> r[j] == 0.0
  {
    seq(m, j => if j == 0 then c else 0.0)
  }

  lemma {:induction false} InterceptEnergy(z: Matrix, n: nat, m: nat, c: real)
    requires n <= |z| && Rectangular(z, m + 1) && m > 0
    requires forall i :: 0 <= i < |z| ==> z[i][0] == 1.0
    ensures var b := Intercept(m, c) + [-1.0]; Energy(z, n, m + 1, b, b) == Deviations(z, n, m, c)
  {
    var b := Intercept(m, c) + [-1.0];
    if n > 0 {
      InterceptEnergy(z, n - 1, m, c);
      var row := z[n - 1];
      DotCommutes(row, b, m + 1);
      DotSplit(b, row, 0, 1, m + 1);
      DotSplit(b, row, 1, m, m + 1);
      DotZero(b, row, 1, m);
      assert DotRange(b, row, 0, 1) == DotRange(b, row, 0, 0) + b[0] * row[0];
      assert DotRange(b, row, m, m + 1) == DotRange(b, row, m, m) + b[m] * row[m];
      var x := row[m] - c;
      assert Dot(row, b, m + 1) == -x;
      assert (-x) * (-x) == x * x;
    }
  }

  // R squared as the trainer computes it.
  function RSquared(z: Matrix, m: nat, beta: seq<real>): real
    requires Rectangular(z, m + 1) && |beta| == m && |z| > 0
  {
    var total := Deviations(z, |z|, m, Mean(z, m));
    if total > 0.0 then 1.0 - Ssr(z, m, beta) / total else 0.0
  }

  // R squared lies in [0, 1] whenever the coefficients solve the normal equations with an intercept.
  lemma RSquaredRange(z: Matrix, m: nat, beta: seq<real>)
    requires Rectangular(z, m + 1) && |z| > 0 && m > 0 && Solves(Normal(z, m), m, beta)
    requires forall i :: 0 <= i < |z| ==> z[i][0] == 1.0
    ensures 0.0 <= RSquared(z, m, beta) <= 1.0
  {
    var c := Mean(z, m);
    var total := Deviations(z, |z|, m, c);
    InterceptEnergy(z, |z|, m, c);
    SolutionMinimises(z, m, beta, Intercept(m, c));
    EnergyNonNegative(z, |z|, m + 1, beta + [-1.0]);
    if total > 0.0 {
      QuotientInUnit(Ssr(z, m, beta), total);
    }
  }

  // Sum of the first n responses less c.
  function Offsets(z: Matrix, n: nat, m: nat, c: real): real
    requires n <= |z| && Rectangular(z, m + 1)
  {
    if n == 0 then 0.0 else Offsets(z, n - 1, m, c) + (z[n - 1][m] - c)
  }

  lemma CountStep(n: nat, v: real)
    requires n > 0
    ensures Times(n as real, v) == Times((n - 1) as real, v) + v
  {
    assert n as real == (n - 1) as real + 1.0;
  }

  lemma {:induction false} OffsetsAre(z: Matrix, n: nat, m: nat, c: real)
    requires n <= |z| && Rectangular(z, m + 1)
    ensures Offsets(z, n, m, c) == Responses(z, n, m) - Times(n as real, c)
  {
    if n > 0 {
      hide Times;
      OffsetsAre(z, n - 1, m, c);
      CountStep(n, c);
    }
  }

  lemma ShiftStep(x: real, t: real, f: real)
    ensures Square(x + f) == Square(x) + 2.0 * Times(f, x) + Square(f)
    ensures Times(f, t + x) == Times(f, t) + Times(f, x)
  {
  }

  // Moving the reference of the squared deviations from c to c - f.
  lemma {:induction false} DeviationsShift(z: Matrix, n: nat, m: nat, c: real, f: real)
    requires n <= |z| && Rectangular(z, m + 1)
    ensures Deviations(z, n, m, c - f)
         == Deviations(z, n, m, c) + 2.0 * Times(f, Offsets(z, n, m, c)) + Times(n as real, Square(f))
  {
    if n > 0 {
      var x, y := z[n - 1][m] - c, z[n - 1][m] - (c - f);
      DeviationsShift(z, n - 1, m, c, f);
      CountStep(n, Square(f));
      ShiftStep(x, Offsets(z, n - 1, m, c), f);
      DeviationsStep(z, n, m, c);
      DeviationsStep(z, n, m, c - f);
      hide Times, Square, Deviations;
      assert y == x + f;
    } else {
      assert Times(f, 0.0) == 0.0 == Times(0.0, Square(f));
    }
  }

  lemma DeviationsStep(z: Matrix, n: nat, m: nat, c: real)
    requires 0 < n <= |z| && Rectangular(z, m + 1)
    ensures Deviations(z, n, m, c) == Deviations(z, n - 1, m, c) + Square(z[n - 1][m] - c)
  {
  }

  // Of all constants the mean has the smallest squared deviations; any other is worse by its squared
  // distance once per sample.
  lemma MeanIsBest(z: Matrix, m: nat, d: real)
    requires Rectangular(z, m + 1) && |z| > 0
    ensures Deviations(z, |z|, m, d) == Deviations(z, |z|, m, Mean(z, m)) + Times(|z| as real, Square(Mean(z, m) - d))
    ensures d != Mean(z, m) ==> Deviations(z, |z|, m, d) > Deviations(z, |z|, m, Mean(z, m))
  {
    hide Times, Square, Deviations, Responses, Mean, Offsets;
    var c := Mean(z, m);
    MeanCentres(z, m);
    OffsetsAre(z, |z|, m, c);
    DeviationsShift(z, |z|, m, c, c - d);
    TimesSigns(|z| as real, c - d);
  }

  lemma MeanCentres(z: Matrix, m: nat)
    requires Rectangular(z, m + 1) && |z| > 0
    ensures Times(|z| as real, Mean(z, m)) == Responses(z, |z|, m)
  {
    Requotient(Responses(z, |z|, m), |z| as real);
  }

  lemma TimesSigns(n: real, f: real)
    requires n > 0.0
    ensures Times(f, 0.0) == 0.0
    ensures f != 0.0 ==> Times(n, Square(f)) > 0.0
  {
    SquareSign(f);
    if f != 0.0 {
      ProductPositive(n, Square(f), Times(n, Square(f)));
    }
  }

  ghost predicate AllEqual(z: Matrix, m: nat)
    requires Rectangular(z, m + 1)
  {
    forall i, j :: 0 <= i < |z| && 0 <= j < |z| ==> z[i][m] == z[j][m]
  }

  lemma {:induction false} DeviationsZero(z: Matrix, n: nat, m: nat, c: real)
    requires n <= |z| && Rectangular(z, m + 1)
    ensures Deviations(z, n, m, c) == 0.0 <==> forall i :: 0 <= i < n ==> z[i][m] == c
  {
    if n > 0 {
      DeviationsZero(z, n - 1, m, c);
      AddSquare(Deviations(z, n - 1, m, c), z[n - 1][m] - c);
    }
  }

  // The responses deviate from their mean unless they are all equal.
  lemma MeanDeviates(z: Matrix, m: nat)
    requires Rectangular(z, m + 1) && |z| > 0
    ensures Deviations(z, |z|, m, Mean(z, m)) == 0.0 <==> AllEqual(z, m)
  {
    DeviationsZero(z, |z|, m, Mean(z, m));
    if AllEqual(z, m) {
      var y := z[0][m];
      DeviationsZero(z, |z|, m, y);
      MeanIsBest(z, m, y);
    }
  }

  // What the fit explains: the squared differences between its predictions and the mean.
  function Explained(z: Matrix, m: nat, beta: seq<real>): real
    requires Rectangular(z, m + 1) && |z| > 0 && m > 0 && |beta| == m
  {
    var d := Difference(Intercept(m, Mean(z, m)) + [-1.0], beta + [-1.0]);
    Energy(z, |z|, m + 1, d, d)
  }

  lemma RSquaredTimesTotal(total: real, ssr: real, q: real)
    requires total > 0.0 && q == 1.0 - ssr / total
    ensures q * total == total - ssr
    ensures q == 1.0 <==> ssr == 0.0
    ensures q == 0.0 <==> ssr == total
  {
    Requotient(ssr, total);
    var x := ssr / total;
    assert (1.0 - x) * total == total - total * x;
  }

  // The deviation from the mean splits into what the fit leaves and what it explains.
  lemma TotalSplits(z: Matrix, m: nat, beta: seq<real>)
    requires Rectangular(z, m + 1) && |z| > 0 && m > 0 && Solves(Normal(z, m), m, beta)
    requires forall i :: 0 <= i < |z| ==> z[i][0] == 1.0
    ensures Deviations(z, |z|, m, Mean(z, m)) == Ssr(z, m, beta) + Explained(z, m, beta)
    ensures Ssr(z, m, beta) >= 0.0 && Explained(z, m, beta) >= 0.0
  {
    hide Energy, Deviations, Mean, Normal, Kernel, Dot;
    var c := Mean(z, m);
    InterceptEnergy(z, |z|, m, c);
    Pythagoras(z, m, beta, Intercept(m, c));
    EnergyNonNegative(z, |z|, m + 1, beta + [-1.0]);
    EnergyNonNegative(z, |z|, m + 1, Difference(Intercept(m, c) + [-1.0], beta + [-1.0]));
  }

  // R squared is the share of the deviation from the mean that the fit explains.
  lemma RSquaredExplains(z: Matrix, m: nat, beta: seq<real>)
    requires Rectangular(z, m + 1) && |z| > 0 && m > 0 && Solves(Normal(z, m), m, beta)
    requires forall i :: 0 <= i < |z| ==> z[i][0] == 1.0
    ensures RSquared(z, m, beta) * Deviations(z, |z|, m, Mean(z, m)) == Explained(z, m, beta)
  {
    TotalSplits(z, m, beta);
    hide Solves, Normal, Deviations, Mean, Ssr, Explained;
    var total := Deviations(z, |z|, m, Mean(z, m));
    if total > 0.0 {
      RSquaredTimesTotal(total, Ssr(z, m, beta), RSquared(z, m, beta));
    }
  }

  // It is one exactly for a fit without residuals, unless all responses are equal.
  lemma RSquaredOneIff(z: Matrix, m: nat, beta: seq<real>)
    requires Rectangular(z, m + 1) && |z| > 0 && |beta| == m && !AllEqual(z, m)
    ensures RSquared(z, m, beta) == 1.0 <==> forall i :: 0 <= i < |z| ==> Dot(z[i], beta + [-1.0], m + 1) == 0.0
  {
    var b := beta + [-1.0];
    MeanDeviates(z, m);
    EnergyZero(z, |z|, m + 1, b);
    hide Energy, Deviations, Mean, Dot;
    RSquaredTimesTotal(Deviations(z, |z|, m, Mean(z, m)), Ssr(z, m, beta), RSquared(z, m, beta));
  }

  lemma {:induction false} EnergyZero(z: Matrix, n: nat, m: nat, d: seq<real>)
    requires n <= |z| && Rectangular(z, m) && |d| == m
    ensures Energy(z, n, m, d, d) == 0.0 <==> forall i :: 0 <= i < n ==> Dot(z[i], d, m) == 0.0
  {
    hide Dot;
    if n > 0 {
      EnergyZero(z, n - 1, m, d);
      EnergyNonNegative(z, n - 1, m, d);
      AddSquare(Energy(z, n - 1, m, d, d), Dot(z[n - 1], d, m));
    }
  }

  // It is zero exactly when the fit is the mean alone, unless all responses are equal; then it is zero.
  lemma RSquaredZeroIff(z: Matrix, m: nat, beta: seq<real>)
    requires Rectangular(z, m + 1) && |z| > 0 && m > 0 && Solves(Normal(z, m), m, beta)
    requires forall i :: 0 <= i < |z| ==> z[i][0] == 1.0
    requires Eliminated(Normal(z, m), m, 0).Some?
    ensures RSquared(z, m, beta) == 0.0 <==> AllEqual(z, m) || beta == Intercept(m, Mean(z, m))
  {
    var c := Mean(z, m);
    MeanDeviates(z, m);
    InterceptEnergy(z, |z|, m, c);
    hide Energy, Deviations, Mean, Solves, Eliminated;
    if !AllEqual(z, m) {
      RSquaredTimesTotal(Deviations(z, |z|, m, c), Ssr(z, m, beta), RSquared(z, m, beta));
      if beta != Intercept(m, c) {
        MinimumIsStrict(z, m, beta, Intercept(m, c));
      }
    }
  }

  // q is the share of the deviation from the mean that the fit explains: one exactly without residuals,
  // zero exactly for the mean alone, and zero when there is no deviation to explain.
  ghost predicate FitShare(z: Matrix, m: nat, beta: seq<real>, q: real)
    requires Rectangular(z, m + 1) && |z| > 0 && m > 0 && |beta| == m
  {
    q * Deviations(z, |z|, m, Mean(z, m)) == Explained(z, m, beta) &&
    (!AllEqual(z, m) ==> (q == 1.0 <==> forall i :: 0 <= i < |z| ==> Dot(z[i], beta + [-1.0], m + 1) == 0.0)) &&
    (q == 0.0 <==> AllEqual(z, m) || beta == Intercept(m, Mean(z, m)))
  }

  lemma RSquaredIsShare(z: Matrix, m: nat, beta: seq<real>)
    requires Rectangular(z, m + 1) && |z| > 0 && m > 0 && Solves(Normal(z, m), m, beta)
    requires forall i :: 0 <= i < |z| ==> z[i][0] == 1.0
    requires Eliminated(Normal(z, m), m, 0).Some?
    ensures FitShare(z, m, beta, RSquared(z, m, beta))
  {
    RSquaredExplains(z, m, beta);
    RSquaredZeroIff(z, m, beta);
    if !AllEqual(z, m) {
      RSquaredOneIff(z, m, beta);
    }
  }

  // ---------------------------------------------------------------- the trainer

  // Adds one sample's products to row j of X^T X.
  method AccumulateRow(z: Matrix, m: nat, i: nat, j: nat, xtx: array2<real>)
    requires Rectangular(z, m + 1) && i < |z| && j < m && xtx.Length0 == xtx.Length1 == m
    requires forall q :: 0 <= q < m ==> xtx[j, q] == Gram(z, i, j, q)
    modifies xtx
    ensures forall q :: 0 <= q < m ==> xtx[j, q] == Gram(z, i + 1, j, q)
    ensures forall p, q :: 0 <= p < m && 0 <= q < m && p != j ==> xtx[p, q] == old(xtx[p, q])
  {
    for k := 0 to m
      invariant forall p, q :: 0 <= p < m && 0 <= q < m && p != j ==> xtx[p, q] == old(xtx[p, q])
      invariant forall q :: 0 <= q < m ==> xtx[j, q] == Gram(z, if q < k then i + 1 else i, j, q)
    {
      xtx[j, k] := xtx[j, k] + z[i][j] * z[i][k];
    }
  }

  // X^T X and X^T y accumulated sample by sample.
  method Accumulate(z: Matrix, m: nat) returns (xtx: array2<real>, xty: array<real>)
    requires Rectangular(z, m + 1)
    ensures fresh(xtx) && fresh(xty) && xtx.Length0 == xtx.Length1 == m && xty.Length == m
    ensures forall j, k :: 0 <= j < m && 0 <= k < m ==> xtx[j, k] == Gram(z, |z|, j, k)
    ensures forall j :: 0 <= j < m ==> xty[j] == Gram(z, |z|, j, m)
  {
    xtx := new real[m, m]((j, k) => 0.0);
    xty := new real[m](j => 0.0);
    for i := 0 to |z|
      invariant forall j, k :: 0 <= j < m && 0 <= k < m ==> xtx[j, k] == Gram(z, i, j, k)
      invariant forall j :: 0 <= j < m ==> xty[j] == Gram(z, i, j, m)
    {
      for j := 0 to m
        invariant forall p, k :: 0 <= p < m && 0 <= k < m ==> xtx[p, k] == Gram(z, if p < j then i + 1 else i, p, k)
        invariant forall p :: 0 <= p < m ==> xty[p] == Gram(z, if p < j then i + 1 else i, p, m)
      {
        xty[j] := xty[j] + z[i][j] * z[i][m];
        AccumulateRow(z, m, i, j, xtx);
      }
    }
  }

  // The augmented matrix of the normal equations.
  method BuildNormal(z: Matrix, m: nat) returns (a: array2<real>)
    requires Rectangular(z, m + 1)
    ensures fresh(a) && a.Length0 == m && a.Length1 == m + 1
    ensures Mat(a) == Normal(z, m)
  {
    var xtx, xty := Accumulate(z, m);
    a := new real[m, m + 1]((j, k) => 0.0);
    for i := 0 to m
      modifies a
      invariant forall p, q :: 0 <= p < i && 0 <= q <= m ==> a[p, q] == Gram(z, |z|, p, q)
    {
      for j := 0 to m
        modifies a
        invariant forall p, q :: 0 <= p < i && 0 <= q <= m ==> a[p, q] == Gram(z, |z|, p, q)
        invariant forall q :: 0 <= q < j ==> a[i, q] == Gram(z, |z|, i, q)
      {
        a[i, j] := xtx[i, j];
      }
      a[i, m] := xty[i];
    }
    MatrixEqual(Mat(a), Normal(z, m), m + 1);
  }

  method FindPivot(a: array2<real>, i: nat) returns (maxRow: nat, maxVal: real)
    requires i < a.Length0 && i < a.Length1
    ensures maxRow == PivotRow(Mat(a), i, a.Length0)
    ensures maxVal == Abs(a[maxRow, i])
  {
    hide Abs;
    maxRow := i;
    maxVal := Abs(a[i, i]);
    for r := i + 1 to a.Length0
      invariant maxRow == PivotRow(Mat(a), i, r)
      invariant maxVal == Abs(a[maxRow, i])
    {
      if Abs(a[r, i]) > maxVal {
        maxVal := Abs(a[r, i]);
        maxRow := r;
      }
    }
  }

  method SwapRows(a: array2<real>, i: nat, p: nat)
    requires i < a.Length0 && p < a.Length0
    modifies a
    ensures Mat(a) == Swapped(old(Mat(a)), i, p)
  {
    for j := 0 to a.Length1
      invariant forall q :: 0 <= q < j ==> a[i, q] == old(a[p, q]) && a[p, q] == old(a[i, q])
      invariant forall r, q :: 0 <= r < a.Length0 && 0 <= q < a.Length1 && (q >= j || (r != i && r != p)) ==>
        a[r, q] == old(a[r, q])
    {
      var tmp := a[i, j];
      a[i, j] := a[p, j];
      a[p, j] := tmp;
    }
    MatrixEqual(Mat(a), Swapped(old(Mat(a)), i, p), a.Length1);
  }

  method ReduceRow(a: array2<real>, i: nat, r: nat)
    requires i < r < a.Length0 && a.Length1 == a.Length0 + 1 && a[i, i] != 0.0
    modifies a
    ensures Mat(a) == old(Mat(a))[r := Reduced(old(Mat(a))[r], old(Mat(a))[i], i)]
  {
    var factor := a[r, i] / a[i, i];
    for j := i to a.Length1
      invariant forall q :: 0 <= q < a.Length1 ==>
        a[r, q] == if i <= q < j then old(a[r, q]) - factor * old(a[i, q]) else old(a[r, q])
      invariant forall p, q :: 0 <= p < a.Length0 && 0 <= q < a.Length1 && p != r ==> a[p, q] == old(a[p, q])
    {
      a[r, j] := a[r, j] - factor * a[i, j];
    }
    MatrixEqual(Mat(a), old(Mat(a))[r := Reduced(old(Mat(a))[r], old(Mat(a))[i], i)], a.Length1);
  }

  // Reduces every row below i.
  method ClearColumn(a: array2<real>, i: nat)
    requires i < a.Length0 && a.Length1 == a.Length0 + 1 && a[i, i] != 0.0
    modifies a
    ensures Mat(a) == Cleared(old(Mat(a)), a.Length0, i)
  {
    ghost var s := Mat(a);
    for r := i + 1 to a.Length0
      invariant forall p :: 0 <= p < a.Length0 ==> Mat(a)[p] == if i < p < r then Reduced(s[p], s[i], i) else s[p]
    {
      assert a[i, i] == Mat(a)[i][i] == s[i][i];
      ReduceRow(a, i, r);
    }
    assert Mat(a) == Cleared(s, a.Length0, i);
  }

  // Forward elimination with partial pivoting, in place.
  method ForwardEliminate(a: array2<real>) returns (ok: bool)
    requires a.Length1 == a.Length0 + 1
    modifies a
    ensures ok <==> Eliminated(old(Mat(a)), a.Length0, 0).Some?
    ensures ok ==> Mat(a) == Eliminated(old(Mat(a)), a.Length0, 0).value
  {
    hide PivotRow;
    var m := a.Length0;
    for i := 0 to m
      invariant Eliminated(old(Mat(a)), m, 0) == Eliminated(Mat(a), m, i)
    {
      ghost var start := Mat(a);
      var maxRow, maxVal := FindPivot(a, i);
      if maxVal < PIVOT_LIMIT {
        return false;
      }
      if maxRow != i {
        SwapRows(a, i, maxRow);
      }
      assert Mat(a) == Swapped(start, i, maxRow);
      assert Mat(a)[i][i] == start[maxRow][i];
      ClearColumn(a, i);
    }
    return true;
  }

  // One row of back substitution.
  method SolveRow(a: array2<real>, beta: array<real>, i: nat)
    requires a.Length1 == a.Length0 + 1 && i < a.Length0 == beta.Length && a[i, i] != 0.0
    modifies beta
    ensures forall q :: 0 <= q < beta.Length && q != i ==> beta[q] == old(beta[q])
    ensures beta[i] == (a[i, beta.Length] - DotRange(Mat(a)[i], old(beta[..]), i + 1, beta.Length)) / a[i, i]
  {
    ghost var before := beta[..];
    ghost var row := Mat(a)[i];
    beta[i] := a[i, beta.Length];
    for j := i + 1 to beta.Length
      invariant forall q :: 0 <= q < beta.Length && q != i ==> beta[q] == before[q]
      invariant beta[i] == a[i, beta.Length] - DotRange(row, before, i + 1, j)
    {
      beta[i] := beta[i] - a[i, j] * beta[j];
    }
    beta[i] := beta[i] / a[i, i];
  }

  // Back substitution on a triangular system.
  method BackSubstitute(a: array2<real>) returns (beta: array<real>)
    requires a.Length1 == a.Length0 + 1 && Triangular(Mat(a), a.Length0, a.Length0)
    ensures fresh(beta) && beta.Length == a.Length0
    ensures Solves(Mat(a), a.Length0, beta[..])
  {
    var m := a.Length0;
    ghost var u := Mat(a);
    beta := new real[m](j => 0.0);
    for i := m downto 0
      invariant SolvedFrom(u, m, beta[..], i)
    {
      ghost var before := beta[..];
      assert a[i, i] == u[i][i] && a[i, m] == u[i][m];
      SolveRow(a, beta, i);
      Requotient(u[i][m] - DotRange(u[i], before, i + 1, m), u[i][i]);
      RowSolved(u, m, i, before, beta[..]);
    }
  }

  // The equations of rows i and below hold.
  ghost predicate SolvedFrom(u: Matrix, m: nat, beta: seq<real>, i: nat)
    requires Augmented(u, m) && |beta| == m
  {
    forall r :: i <= r < m ==> Dot(u[r], beta + [-1.0], m + 1) == 0.0
  }

  // A row of a triangular matrix only meets the unknowns from its diagonal on.
  lemma TriangularDot(u: Matrix, m: nat, r: nat, beta: seq<real>)
    requires Augmented(u, m) && Triangular(u, m, m) && r < m && |beta| == m
    ensures Dot(u[r], beta + [-1.0], m + 1) == DotRange(u[r], beta, r, m) - u[r][m]
  {
    var b := beta + [-1.0];
    DotSplit(u[r], b, 0, r, m + 1);
    DotZero(u[r], b, 0, r);
    DotCongruence(u[r], b, u[r], beta, r, m);
  }

  // The step of back substitution: row i is now solved and the rows below it stay solved.
  lemma RowSolved(u: Matrix, m: nat, i: nat, before: seq<real>, beta: seq<real>)
    requires Augmented(u, m) && Triangular(u, m, m) && i < m && |before| == |beta| == m
    requires forall q :: 0 <= q < m && q != i ==> beta[q] == before[q]
    requires u[i][i] * beta[i] == u[i][m] - DotRange(u[i], before, i + 1, m)
    requires SolvedFrom(u, m, before, i + 1)
    ensures SolvedFrom(u, m, beta, i)
  {
    TriangularDot(u, m, i, beta);
    DotSplit(u[i], beta, i, i + 1, m);
    assert DotRange(u[i], beta, i, i + 1) == DotRange(u[i], beta, i, i) + u[i][i] * beta[i];
    DotCongruence(u[i], beta, u[i], before, i + 1, m);
    forall r | i < r < m ensures Dot(u[r], beta + [-1.0], m + 1) == 0.0 {
      TriangularDot(u, m, r, before);
      TriangularDot(u, m, r, beta);
      DotCongruence(u[r], beta, u[r], before, r, m);
    }
  }

  class PerfPredictor {
    var coefficients: seq<real>
    var rSquared: real
    var numSamples: nat

    // Fits the coefficients; refuses too few samples and systems without a usable pivot, and then
    // leaves the predictor as it was.
    method Train(samples: seq<PerfSample>) returns (ok: bool)
      modifies this
      ensures ok <==> |samples| >= FEATURES && Eliminated(Normal(Rows(samples), FEATURES), FEATURES, 0).Some?
      ensures ok ==> Solves(Normal(Rows(samples), FEATURES), FEATURES, coefficients)
      ensures ok ==> 0.0 <= rSquared <= 1.0 && FitShare(Rows(samples), FEATURES, coefficients, rSquared)
      ensures ok ==> numSamples == |samples|
      ensures !ok ==> unchanged(this)
    {
      hide DotRange, Eliminated, Gram, RSquared;
      if |samples| < FEATURES {
        return false;
      }
      var z := Rows(samples);
      var a := BuildNormal(z, FEATURES);
      var solvable := ForwardEliminate(a);
      if !solvable {
        return false;
      }
      ghost var zero := seq(FEATURES + 1, j => 0.0);
      EliminationKeepsKernel(Normal(z, FEATURES), FEATURES, 0, zero);
      var beta := BackSubstitute(a);
      EliminationKeepsKernel(Normal(z, FEATURES), FEATURES, 0, beta[..] + [-1.0]);
      coefficients := beta[..];
      rSquared := FitQuality(samples, beta[..]);
      RSquaredRange(z, FEATURES, beta[..]);
      RSquaredIsShare(z, FEATURES, beta[..]);
      numSamples := |samples|;
      return true;
    }

    // The predicted latency of a sample.
    function Predict(sample: PerfSample): (latency: real)
      requires |coefficients| == FEATURES
      reads this
      ensures Dot(Row(sample), coefficients + [-1.0], FEATURES + 1) == latency - sample.measuredLatencyMs
    {
      PredictionIsRow(coefficients, sample);
      Prediction(coefficients, sample)
    }
  }

  function Prediction(c: seq<real>, s: PerfSample): real
    requires |c| == FEATURES
  {
    c[0] + c[1] * s.ipc + c[2] * s.l1MissRate + c[3] * s.l2MissRate + c[4] * s.l3MissRate +
    c[5] * s.branchMissRate + c[6] * s.tlbMissRate + c[7] * s.bwUtilization
  }

  lemma PredictionIsRow(c: seq<real>, s: PerfSample)
    requires |c| == FEATURES
    ensures Dot(Row(s), c + [-1.0], FEATURES + 1) == Prediction(c, s) - s.measuredLatencyMs
  {
    var r, b := Row(s), c + [-1.0];
    assert DotRange(r, b, 0, 3) == r[0] * b[0] + r[1] * b[1] + r[2] * b[2];
    assert DotRange(r, b, 0, 6) == DotRange(r, b, 0, 3) + r[3] * b[3] + r[4] * b[4] + r[5] * b[5];
    assert DotRange(r, b, 0, 9) == DotRange(r, b, 0, 6) + r[6] * b[6] + r[7] * b[7] + r[8] * b[8];
  }

  // The loops that accumulate the residual and total sums of squares.
  method FitQuality(samples: seq<PerfSample>, beta: seq<real>) returns (quality: real)
    requires |samples| > 0 && |beta| == FEATURES
    ensures quality == RSquared(Rows(samples), FEATURES, beta)
  {
    hide DotRange;
    ghost var z := Rows(samples);
    var n := |samples|;
    var mean := 0.0;
    for i := 0 to n
      invariant mean == Responses(z, i, FEATURES)
    {
      mean := mean + samples[i].measuredLatencyMs;
    }
    mean := mean / (n as real);
    var ssRes, ssTot := 0.0, 0.0;
    for i := 0 to n
      invariant ssRes == Energy(z, i, FEATURES + 1, beta + [-1.0], beta + [-1.0])
      invariant ssTot == Deviations(z, i, FEATURES, mean)
    {
      var residual := samples[i].measuredLatencyMs - Prediction(beta, samples[i]);
      PredictionIsRow(beta, samples[i]);
      ghost var e := Dot(z[i], beta + [-1.0], FEATURES + 1);
      assert residual * residual == e * e by { assert e == -residual; }
      ssRes := ssRes + residual * residual;
      var d := samples[i].measuredLatencyMs - mean;
      ssTot := ssTot + d * d;
    }
    quality := if ssTot > 0.0 then 1.0 - ssRes / ssTot else 0.0;
  }
}
