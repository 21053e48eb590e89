// mini-ai-accelerator/src/mma.c: Winograd F(2,3) convolution.
module Winograd {
  import opened Vectors

  // ---------------------------------------------------------------- transform matrices

  const G: Matrix := [[1.0, 0.0, 0.0], [0.5, 0.5, 0.5], [0.5, -0.5, 0.5], [0.0, 0.0, 1.0]]
  const BT: Matrix := [[1.0, 0.0, -1.0, 0.0], [0.0, 1.0, 1.0, 0.0], [0.0, -1.0, 1.0, 0.0], [0.0, 1.0, 0.0, -1.0]]
  const AT: Matrix := [[1.0, 1.0, 1.0, 0.0], [0.0, 1.0, -1.0, -1.0]]

  // One-dimensional F(2,3): two outputs of a three-tap filter from four products.
  lemma WinogradLine(d0: real, d1: real, d2: real, d3: real, g0: real, g1: real, g2: real)
    ensures (d0 - d2) * g0 + (d1 + d2) * (0.5 * g0 + 0.5 * g1 + 0.5 * g2) + (d2 - d1) * (0.5 * g0 - 0.5 * g1 + 0.5 * g2)
         == d0 * g0 + d1 * g1 + d2 * g2
    ensures (d1 + d2) * (0.5 * g0 + 0.5 * g1 + 0.5 * g2) - (d2 - d1) * (0.5 * g0 - 0.5 * g1 + 0.5 * g2) - (d1 - d3) * g2
         == d1 * g0 + d2 * g1 + d3 * g2
  {
  }

  // The left factors of the transforms applied to a line.
  function FilterLine(i: nat, x: real, y: real, z: real): real
    requires i < 4
  {
    if i == 0 then x else if i == 1 then 0.5 * x + 0.5 * y + 0.5 * z else if i == 2 then 0.5 * x - 0.5 * y + 0.5 * z else z
  }

  function InputLine(i: nat, x: real, y: real, z: real, w: real): real
    requires i < 4
  {
    if i == 0 then x - z else if i == 1 then y + z else if i == 2 then z - y else y - w
  }

  function OutputLine(a: nat, x: real, y: real, z: real, w: real): real
    requires a < 2
  {
    if a == 0 then x + y + z else y - z - w
  }

  lemma DotThree(a: seq<real>, b: seq<real>)
    requires |a| >= 3 && |b| >= 3
    ensures Dot(a, b, 3) == a[0] * b[0] + a[1] * b[1] + a[2] * b[2]
  {
    assert DotRange(a, b, 0, 1) == a[0] * b[0];
    assert DotRange(a, b, 0, 2) == a[0] * b[0] + a[1] * b[1];
  }

  lemma DotFour(a: seq<real>, b: seq<real>)
    requires |a| >= 4 && |b| >= 4
    ensures Dot(a, b, 4) == a[0] * b[0] + a[1] * b[1] + a[2] * b[2] + a[3] * b[3]
  {
    DotThree(a, b);
  }

  lemma FilterDot(i: nat, x: seq<real>)
    requires i < 4 && |x| == 3
    ensures Dot(G[i], x, 3) == FilterLine(i, x[0], x[1], x[2]) == Dot(x, G[i], 3)
  {
    DotThree(G[i], x);
    DotThree(x, G[i]);
  }

  lemma InputDot(i: nat, x: seq<real>)
    requires i < 4 && |x| == 4
    ensures Dot(BT[i], x, 4) == InputLine(i, x[0], x[1], x[2], x[3]) == Dot(x, BT[i], 4)
  {
    DotFour(BT[i], x);
    DotFour(x, BT[i]);
  }

  lemma OutputDot(a: nat, x: seq<real>)
    requires a < 2 && |x| == 4
    ensures Dot(AT[a], x, 4) == OutputLine(a, x[0], x[1], x[2], x[3]) == Dot(x, AT[a], 4)
  {
    DotFour(AT[a], x);
    DotFour(x, AT[a]);
  }

  // ---------------------------------------------------------------- the transforms

  // l x
  function LeftProduct(l: Matrix, x: Matrix, n: nat): (r: Matrix)
    requires Rectangular(l, n) && |x| == n && Rectangular(x, n)
    ensures |r| == |l| && Rectangular(r, n)
    ensures forall i, j :: 0 <= i < |l| && 0 <= j < n ==> r[i][j] == Dot(l[i], Column(x, n, j), n)
  {
    seq(|l|, i requires 0 <= i < |l| => seq(n, j requires 0 <= j < n => Dot(l[i], Column(x, n, j), n)))
  }

  // l x transpose(l)
  function Sandwich(l: Matrix, x: Matrix, n: nat): (r: Matrix)
    requires Rectangular(l, n) && |x| == n && Rectangular(x, n)
    ensures |r| == |l| && Rectangular(r, |l|)
    ensures forall i, j :: 0 <= i < |l| && 0 <= j < |l| ==> r[i][j] == Dot(LeftProduct(l, x, n)[i], l[j], n)
  {
    seq(|l|, i requires 0 <= i < |l| => seq(|l|, j requires 0 <= j < |l| => Dot(LeftProduct(l, x, n)[i], l[j], n)))
  }

  // The valid 3x3 correlation at (a, b).
  function Correlation(d: Matrix, width: nat, g: Matrix, a: nat, b: nat): real
    requires a + 3 <= |d| && Rectangular(d, width) && b + 3 <= width && |g| == 3 && Rectangular(g, 3)
  {
    (d[a][b] * g[0][0] + d[a + 1][b] * g[1][0] + d[a + 2][b] * g[2][0]) +
    (d[a][b + 1] * g[0][1] + d[a + 1][b + 1] * g[1][1] + d[a + 2][b + 1] * g[2][1]) +
    (d[a][b + 2] * g[0][2] + d[a + 1][b + 2] * g[1][2] + d[a + 2][b + 2] * g[2][2])
  }

  // U elementwise V
  function Elementwise(u: Matrix, v: Matrix, n: nat): (r: Matrix)
    requires |u| == n && Rectangular(u, n) && |v| == n && Rectangular(v, n)
    ensures |r| == n && Rectangular(r, n)
    ensures forall i, j :: 0 <= i < n && 0 <= j < n ==> r[i][j] == u[i][j] * v[i][j]
  {
    seq(n, i requires 0 <= i < n => seq(n, j requires 0 <= j < n => u[i][j] * v[i][j]))
  }

  // F(2,3) on transformed lines: output a of the products is the three-tap sum at a.
  lemma LineProducts(a: nat, d0: real, d1: real, d2: real, d3: real, g0: real, g1: real, g2: real)
    requires a < 2
    ensures OutputLine(a,
        FilterLine(0, g0, g1, g2) * InputLine(0, d0, d1, d2, d3), FilterLine(1, g0, g1, g2) * InputLine(1, d0, d1, d2, d3),
        FilterLine(2, g0, g1, g2) * InputLine(2, d0, d1, d2, d3), FilterLine(3, g0, g1, g2) * InputLine(3, d0, d1, d2, d3))
      == if a == 0 then d0 * g0 + d1 * g1 + d2 * g2 else d1 * g0 + d2 * g1 + d3 * g2
  {
    WinogradLine(d0, d1, d2, d3, g0, g1, g2);
  }

  // Row i of the transformed products, combined along the row: a three-tap sum of half-transformed rows.
  lemma RowProducts(tg: seq<real>, td: seq<real>, u: seq<real>, v: seq<real>, m: seq<real>, b: nat)
    requires |tg| == 3 && |td| == |u| == |v| == |m| == 4 && b < 2
    requires forall j :: 0 <= j < 4 ==> u[j] == Dot(tg, G[j], 3) && v[j] == Dot(td, BT[j], 4) && m[j] == u[j] * v[j]
    ensures Dot(m, AT[b], 4) == td[b] * tg[0] + td[b + 1] * tg[1] + td[b + 2] * tg[2]
  {
    hide Dot, DotRange;
    OutputDot(b, m);
    FilterDot(0, tg); FilterDot(1, tg); FilterDot(2, tg); FilterDot(3, tg);
    InputDot(0, td); InputDot(1, td); InputDot(2, td); InputDot(3, td);
    LineProducts(b, td[0], td[1], td[2], td[3], tg[0], tg[1], tg[2]);
  }

  // Column l of the half-transformed tile and filter, combined down the column.
  lemma ColumnProducts(gc: seq<real>, dc: seq<real>, x: seq<real>, y: seq<real>, p: seq<real>, a: nat)
    requires |gc| == 3 && |dc| == |x| == |y| == |p| == 4 && a < 2
    requires forall i :: 0 <= i < 4 ==> x[i] == Dot(G[i], gc, 3) && y[i] == Dot(BT[i], dc, 4) && p[i] == x[i] * y[i]
    ensures Dot(AT[a], p, 4) == dc[a] * gc[0] + dc[a + 1] * gc[1] + dc[a + 2] * gc[2]
  {
    hide Dot, DotRange;
    OutputDot(a, p);
    FilterDot(0, gc); FilterDot(1, gc); FilterDot(2, gc); FilterDot(3, gc);
    InputDot(0, dc); InputDot(1, dc); InputDot(2, dc); InputDot(3, dc);
    LineProducts(a, dc[0], dc[1], dc[2], dc[3], gc[0], gc[1], gc[2]);
  }

  // The output transform of a 4x4 block, entry (a, b), with its sums written out.
  lemma OutputEntry(m: Matrix, a: nat, b: nat)
    requires |m| == 4 && Rectangular(m, 4) && a < 2 && b < 2
    ensures Sandwich(AT, m, 4)[a][b]
         == OutputLine(b, OutputLine(a, m[0][0], m[1][0], m[2][0], m[3][0]), OutputLine(a, m[0][1], m[1][1], m[2][1], m[3][1]),
                          OutputLine(a, m[0][2], m[1][2], m[2][2], m[3][2]), OutputLine(a, m[0][3], m[1][3], m[2][3], m[3][3]))
         == OutputLine(a, OutputLine(b, m[0][0], m[0][1], m[0][2], m[0][3]), OutputLine(b, m[1][0], m[1][1], m[1][2], m[1][3]),
                          OutputLine(b, m[2][0], m[2][1], m[2][2], m[2][3]), OutputLine(b, m[3][0], m[3][1], m[3][2], m[3][3]))
  {
    hide Dot, DotRange;
    var t := LeftProduct(AT, m, 4)[a];
    OutputDot(b, t);
    OutputDot(a, Column(m, 4, 0)); OutputDot(a, Column(m, 4, 1)); OutputDot(a, Column(m, 4, 2)); OutputDot(a, Column(m, 4, 3));
  }

  // The output transform is additive.
  lemma OutputAdds(m: Matrix, e: Matrix, s: Matrix, a: nat, b: nat)
    requires |m| == |e| == |s| == 4 && Rectangular(m, 4) && Rectangular(e, 4) && Rectangular(s, 4) && a < 2 && b < 2
    requires forall i, j :: 0 <= i < 4 && 0 <= j < 4 ==> s[i][j] == m[i][j] + e[i][j]
    ensures Sandwich(AT, s, 4)[a][b] == Sandwich(AT, m, 4)[a][b] + Sandwich(AT, e, 4)[a][b]
  {
    hide Sandwich;
    OutputEntry(m, a, b);
    OutputEntry(e, a, b);
    OutputEntry(s, a, b);
  }

  // The elementwise product of a transformed filter and a transformed tile.
  function Product(g: Matrix, d: Matrix): (r: Matrix)
    requires |g| == 3 && Rectangular(g, 3) && |d| == 4 && Rectangular(d, 4)
    ensures |r| == 4 && Rectangular(r, 4)
  {
    Elementwise(Sandwich(G, g, 3), Sandwich(BT, d, 4), 4)
  }

  // A row of the product, combined along the row, is a three-tap sum down the half-transformed columns.
  lemma ProductRow(g: Matrix, d: Matrix, i: nat, b: nat)
    requires |g| == 3 && Rectangular(g, 3) && |d| == 4 && Rectangular(d, 4) && i < 4 && b < 2
    ensures var m := Product(g, d)[i]; var tg := LeftProduct(G, g, 3)[i]; var td := LeftProduct(BT, d, 4)[i];
      OutputLine(b, m[0], m[1], m[2], m[3]) == td[b] * tg[0] + td[b + 1] * tg[1] + td[b + 2] * tg[2]
  {
    hide Dot, DotRange, LeftProduct;
    var m, tg, td := Product(g, d)[i], LeftProduct(G, g, 3)[i], LeftProduct(BT, d, 4)[i];
    RowProducts(tg, td, Sandwich(G, g, 3)[i], Sandwich(BT, d, 4)[i], m, b);
    OutputDot(b, m);
  }

  // Column l of the half-transformed filter against column b + l of the half-transformed tile.
  function HalfProduct(g: Matrix, d: Matrix, l: nat, b: nat): (r: seq<real>)
    requires |g| == 3 && Rectangular(g, 3) && |d| == 4 && Rectangular(d, 4) && l < 3 && b < 2
    ensures |r| == 4
    ensures forall i :: 0 <= i < 4 ==> r[i] == LeftProduct(G, g, 3)[i][l] * LeftProduct(BT, d, 4)[i][b + l]
  {
    seq(4, i requires 0 <= i < 4 => LeftProduct(G, g, 3)[i][l] * LeftProduct(BT, d, 4)[i][b + l])
  }

  lemma ProductColumn(g: Matrix, d: Matrix, l: nat, a: nat, b: nat)
    requires |g| == 3 && Rectangular(g, 3) && |d| == 4 && Rectangular(d, 4) && l < 3 && a < 2 && b < 2
    ensures var p := HalfProduct(g, d, l, b);
      OutputLine(a, p[0], p[1], p[2], p[3]) == d[a][b + l] * g[0][l] + d[a + 1][b + l] * g[1][l] + d[a + 2][b + l] * g[2][l]
  {
    hide Dot, DotRange;
    var p, gc, dc := HalfProduct(g, d, l, b), Column(g, 3, l), Column(d, 4, b + l);
    var x := seq(4, i requires 0 <= i < 4 => Dot(G[i], gc, 3));
    var y := seq(4, i requires 0 <= i < 4 => Dot(BT[i], dc, 4));
    ColumnProducts(gc, dc, x, y, p, a);
    OutputDot(a, p);
  }

  // F(2,3) in two dimensions: transforming the elementwise product back gives the valid 3x3
  // correlation of the tile.
  lemma WinogradTile(g: Matrix, d: Matrix, a: nat, b: nat)
    requires |g| == 3 && Rectangular(g, 3) && |d| == 4 && Rectangular(d, 4) && a < 2 && b < 2
    ensures Sandwich(AT, Product(g, d), 4)[a][b] == Correlation(d, 4, g, a, b)
  {
    hide Sandwich, Product, LeftProduct, HalfProduct;
    OutputEntry(Product(g, d), a, b);
    ProductRow(g, d, 0, b); ProductRow(g, d, 1, b); ProductRow(g, d, 2, b); ProductRow(g, d, 3, b);
    ProductColumn(g, d, 0, a, b); ProductColumn(g, d, 1, a, b); ProductColumn(g, d, 2, a, b);
  }

  // ---------------------------------------------------------------- the convolution

  // The 4x4 window of x at (i, j).
  function Window(x: Matrix, width: nat, i: nat, j: nat): (r: Matrix)
    requires i + 4 <= |x| && Rectangular(x, width) && j + 4 <= width
    ensures |r| == 4 && Rectangular(r, 4)
    ensures forall a, b :: 0 <= a < 4 && 0 <= b < 4 ==> r[a][b] == x[i + a][j + b]
  {
    seq(4, a requires 0 <= a < 4 => x[i + a][j..j + 4])
  }

  ghost predicate AreFilters(ks: seq<Matrix>) {
    forall c :: 0 <= c < |ks| ==> |ks[c]| == 3 && Rectangular(ks[c], 3)
  }

  // The filters of the first n channels, each correlated with the same plane, at (i, j).
  ghost function ChannelSum(x: Matrix, width: nat, ks: seq<Matrix>, n: nat, i: nat, j: nat): real
    requires i + 3 <= |x| && Rectangular(x, width) && j + 3 <= width && n <= |ks| && AreFilters(ks)
  {
    if n == 0 then 0.0 else ChannelSum(x, width, ks, n - 1, i, j) + Correlation(x, width, ks[n - 1], i, j)
  }

  ghost function Filter(kernel: array3<real>, c: nat): (r: Matrix)
    requires c < kernel.Length0 && kernel.Length1 == kernel.Length2 == 3
    reads kernel
    ensures |r| == 3 && Rectangular(r, 3)
    ensures forall i, j :: 0 <= i < 3 && 0 <= j < 3 ==> r[i][j] == kernel[c, i, j]
  {
    seq(3, i requires 0 <= i < 3 reads kernel => seq(3, j requires 0 <= j < 3 reads kernel => kernel[c, i, j]))
  }

  ghost function Filters(kernel: array3<real>): (r: seq<Matrix>)
    requires kernel.Length1 == kernel.Length2 == 3
    reads kernel
    ensures |r| == kernel.Length0
    ensures forall c :: 0 <= c < |r| ==> r[c] == Filter(kernel, c)
  {
    seq(kernel.Length0, c requires 0 <= c < kernel.Length0 reads kernel => Filter(kernel, c))
  }

  // The next channel's product, transformed back, adds its correlation.
  lemma AddChannel(x: Matrix, width: nat, ks: seq<Matrix>, c: nat, i: nat, j: nat, m: Matrix, s: Matrix, a: nat, b: nat)
    requires i + 4 <= |x| && Rectangular(x, width) && j + 4 <= width && c < |ks| && a < 2 && b < 2
    requires AreFilters(ks)
    requires |m| == |s| == 4 && Rectangular(m, 4) && Rectangular(s, 4)
    requires var e := Product(ks[c], Window(x, width, i, j));
      forall k, l :: 0 <= k < 4 && 0 <= l < 4 ==> s[k][l] == m[k][l] + e[k][l]
    requires Sandwich(AT, m, 4)[a][b] == ChannelSum(x, width, ks, c, i + a, j + b)
    ensures Sandwich(AT, s, 4)[a][b] == ChannelSum(x, width, ks, c + 1, i + a, j + b)
  {
    hide Sandwich, Product, Window;
    var d := Window(x, width, i, j);
    OutputAdds(m, Product(ks[c], d), s, a, b);
    WinogradTile(ks[c], d, a, b);
    assert Correlation(d, 4, ks[c], a, b) == Correlation(x, width, ks[c], i + a, j + b);
  }

  // l x
  method MultiplyLeft(l: Matrix, x: array2<real>, n: nat) returns (tmp: array2<real>)
    requires Rectangular(l, n) && x.Length0 == x.Length1 == n
    ensures fresh(tmp) && tmp.Length0 == |l| && tmp.Length1 == n
    ensures Mat(tmp) == LeftProduct(l, Mat(x), n)
  {
    hide DotRange, LeftProduct;
    ghost var half := LeftProduct(l, Mat(x), n);
    tmp := new real[|l|, n];
    for i := 0 to |l|
      invariant forall k, j :: 0 <= k < i && 0 <= j < n ==> tmp[k, j] == half[k][j]
    {
      for j := 0 to n
        invariant forall k, q :: 0 <= k < i && 0 <= q < n ==> tmp[k, q] == half[k][q]
        invariant forall q :: 0 <= q < j ==> tmp[i, q] == half[i][q]
      {
        tmp[i, j] := RowTimesColumn(l[i], x, j);
      }
    }
    MatrixEqual(Mat(tmp), half, n);
  }

  method RowTimesColumn(row: seq<real>, x: array2<real>, j: nat) returns (sum: real)
    requires x.Length0 == |row| && j < x.Length1
    ensures sum == Dot(row, Column(Mat(x), x.Length1, j), |row|)
  {
    ghost var col := Column(Mat(x), x.Length1, j);
    sum := 0.0;
    for k := 0 to |row|
      invariant sum == Dot(row, col, k)
    {
      sum := sum + row[k] * x[k, j];
    }
  }

  // Row i of x against row.
  method RowTimesRow(x: array2<real>, i: nat, row: seq<real>) returns (sum: real)
    requires x.Length1 == |row| && i < x.Length0
    ensures sum == Dot(Mat(x)[i], row, |row|)
  {
    ghost var left := Mat(x)[i];
    sum := 0.0;
    for k := 0 to |row|
      invariant sum == Dot(left, row, k)
    {
      sum := sum + x[i, k] * row[k];
    }
  }

  // l x transpose(l): the filter, input and output transforms, with l one of G, BT, AT.
  method Transform(l: Matrix, x: array2<real>, n: nat) returns (r: array2<real>)
    requires Rectangular(l, n) && x.Length0 == x.Length1 == n
    ensures fresh(r) && r.Length0 == r.Length1 == |l|
    ensures Mat(r) == Sandwich(l, Mat(x), n)
  {
    hide Dot, DotRange, LeftProduct, Sandwich;
    ghost var full := Sandwich(l, Mat(x), n);
    var tmp := MultiplyLeft(l, x, n);
    r := new real[|l|, |l|];
    for i := 0 to |l|
      modifies r
      invariant forall k, j :: 0 <= k < i && 0 <= j < |l| ==> r[k, j] == full[k][j]
    {
      for j := 0 to |l|
        modifies r
        invariant forall k, q :: 0 <= k < i && 0 <= q < |l| ==> r[k, q] == full[k][q]
        invariant forall q :: 0 <= q < j ==> r[i, q] == full[i][q]
      {
        r[i, j] := RowTimesRow(tmp, i, l[j]);
      }
    }
    MatrixEqual(Mat(r), full, |l|);
  }

  // m += u elementwise v
  method Accumulate(m: array2<real>, u: array2<real>, v: array2<real>)
    requires m.Length0 == m.Length1 == u.Length0 == u.Length1 == v.Length0 == v.Length1 == 4
    requires m != u && m != v
    modifies m
    ensures forall i, j :: 0 <= i < 4 && 0 <= j < 4 ==> m[i, j] == old(m[i, j]) + u[i, j] * v[i, j]
  {
    for i := 0 to 4
      invariant forall k, q :: 0 <= k < 4 && 0 <= q < 4 ==>
        m[k, q] == if k < i then old(m[k, q]) + u[k, q] * v[k, q] else old(m[k, q])
    {
      for j := 0 to 4
        invariant forall k, q :: 0 <= k < 4 && 0 <= q < 4 ==>
          m[k, q] == if k < i || (k == i && q < j) then old(m[k, q]) + u[k, q] * v[k, q] else old(m[k, q])
      {
        m[i, j] := m[i, j] + u[i, j] * v[i, j];
      }
    }
  }

  method ExtractTile(input: array2<real>, hStart: nat, wStart: nat) returns (d: array2<real>)
    requires hStart + 4 <= input.Length0 && wStart + 4 <= input.Length1
    ensures fresh(d) && d.Length0 == d.Length1 == 4
    ensures Mat(d) == Window(Mat(input), input.Length1, hStart, wStart)
  {
    d := new real[4, 4];
    for i := 0 to 4
      invariant forall k, q :: 0 <= k < i && 0 <= q < 4 ==> d[k, q] == input[hStart + k, wStart + q]
    {
      for j := 0 to 4
        invariant forall k, q :: 0 <= k < i && 0 <= q < 4 ==> d[k, q] == input[hStart + k, wStart + q]
        invariant forall q :: 0 <= q < j ==> d[i, q] == input[hStart + i, wStart + q]
      {
        d[i, j] := input[hStart + i, wStart + j];
      }
    }
    MatrixEqual(Mat(d), Window(Mat(input), input.Length1, hStart, wStart), 4);
  }

  method TransformFilter(kernel: array3<real>, c: nat) returns (u: array2<real>)
    requires c < kernel.Length0 && kernel.Length1 == kernel.Length2 == 3
    ensures fresh(u) && u.Length0 == u.Length1 == 4
    ensures Mat(u) == Sandwich(G, Filter(kernel, c), 3)
  {
    var g := new real[3, 3];
    for i := 0 to 3
      invariant forall k, q :: 0 <= k < i && 0 <= q < 3 ==> g[k, q] == kernel[c, k, q]
    {
      for j := 0 to 3
        invariant forall k, q :: 0 <= k < i && 0 <= q < 3 ==> g[k, q] == kernel[c, k, q]
        invariant forall q :: 0 <= q < j ==> g[i, q] == kernel[c, i, q]
      {
        g[i, j] := kernel[c, i, j];
      }
    }
    MatrixEqual(Mat(g), Filter(kernel, c), 3);
    u := Transform(G, g, 3);
  }

  ghost predicate Transformed(us: seq<array2<real>>, ks: seq<Matrix>, n: nat)
    requires AreFilters(ks)
    reads us
  {
    n == |us| <= |ks| &&
    forall c :: 0 <= c < n ==> us[c].Length0 == us[c].Length1 == 4 && Mat(us[c]) == Sandwich(G, ks[c], 3)
  }

  // One channel of one tile.
  method AccumulateChannel(input: array2<real>, u: array2<real>, ghost g: Matrix, hStart: nat, wStart: nat, m: array2<real>)
    requires hStart + 4 <= input.Length0 && wStart + 4 <= input.Length1
    requires |g| == 3 && Rectangular(g, 3)
    requires m.Length0 == m.Length1 == u.Length0 == u.Length1 == 4 && m != u && m != input
    requires Mat(u) == Sandwich(G, g, 3)
    modifies m
    ensures var e := Product(g, Window(Mat(input), input.Length1, hStart, wStart));
      forall i, j :: 0 <= i < 4 && 0 <= j < 4 ==> m[i, j] == old(m[i, j]) + e[i][j]
  {
    hide Sandwich, Window;
    var d := ExtractTile(input, hStart, wStart);
    var v := Transform(BT, d, 4);
    ghost var tu, tv := Mat(u), Mat(v);
    Accumulate(m, u, v);
    assert Product(g, Window(Mat(input), input.Length1, hStart, wStart)) == Elementwise(tu, tv, 4);
  }

  lemma ZeroOutput(m: Matrix)
    requires |m| == 4 && Rectangular(m, 4) && forall i, j :: 0 <= i < 4 && 0 <= j < 4 ==> m[i][j] == 0.0
    ensures forall a, b :: 0 <= a < 2 && 0 <= b < 2 ==> Sandwich(AT, m, 4)[a][b] == 0.0
  {
    hide Sandwich;
    forall a, b | 0 <= a < 2 && 0 <= b < 2 ensures Sandwich(AT, m, 4)[a][b] == 0.0 {
      OutputEntry(m, a, b);
    }
  }

  // One 2x2 output tile.
  method ConvolveTile(input: array2<real>, us: seq<array2<real>>, ghost ks: seq<Matrix>, hStart: nat, wStart: nat)
    returns (y: array2<real>)
    requires hStart + 4 <= input.Length0 && wStart + 4 <= input.Length1
    requires AreFilters(ks)
    requires Transformed(us, ks, |ks|)
    ensures fresh(y) && y.Length0 == y.Length1 == 2
    ensures forall a, b :: 0 <= a < 2 && 0 <= b < 2 ==>
      y[a, b] == ChannelSum(Mat(input), input.Length1, ks, |ks|, hStart + a, wStart + b)
  {
    hide Sandwich, Correlation, Window, Product, Elementwise;
    ghost var x := Mat(input);
    var m := new real[4, 4]((i, j) => 0.0);
    ZeroOutput(Mat(m));
    for c := 0 to |us|
      modifies m
      invariant forall a, b :: 0 <= a < 2 && 0 <= b < 2 ==>
        Sandwich(AT, Mat(m), 4)[a][b] == ChannelSum(x, input.Length1, ks, c, hStart + a, wStart + b)
    {
      hide ChannelSum;
      ghost var before := Mat(m);
      AccumulateChannel(input, us[c], ks[c], hStart, wStart, m);
      forall a, b | 0 <= a < 2 && 0 <= b < 2
        ensures Sandwich(AT, Mat(m), 4)[a][b] == ChannelSum(x, input.Length1, ks, c + 1, hStart + a, wStart + b)
      {
        AddChannel(x, input.Length1, ks, c, hStart, wStart, before, Mat(m), a, b);
      }
    }
    y := Transform(AT, m, 4);
  }

  method TransformFilters(kernel: array3<real>) returns (us: seq<array2<real>>)
    requires kernel.Length1 == kernel.Length2 == 3
    ensures fresh(us)
    ensures Transformed(us, Filters(kernel), kernel.Length0)
  {
    hide Sandwich;
    ghost var ks := Filters(kernel);
    us := [];
    for c := 0 to kernel.Length0
      modifies {}
      invariant |us| == c
      invariant fresh(us)
      invariant Transformed(us, ks, c)
    {
      var u := TransformFilter(kernel, c);
      us := us + [u];
    }
  }

  // Whether the tiles cover output (i, j).
  predicate Covered(h: nat, w: nat, channels: nat, i: nat, j: nat) {
    h >= 4 && w >= 4 && channels > 0 && i < (h - 2) / 2 * 2 && j < (w - 2) / 2 * 2
  }

  method StoreTile(y: array2<real>, output: array2<real>, hStart: nat, wStart: nat)
    requires y.Length0 == y.Length1 == 2 && y != output
    requires hStart + 2 <= output.Length0 && wStart + 2 <= output.Length1
    modifies output
    ensures forall i, j :: 0 <= i < output.Length0 && 0 <= j < output.Length1 ==>
      output[i, j] == if hStart <= i < hStart + 2 && wStart <= j < wStart + 2 then y[i - hStart, j - wStart] else old(output[i, j])
  {
    output[hStart, wStart], output[hStart, wStart + 1] := y[0, 0], y[0, 1];
    output[hStart + 1, wStart], output[hStart + 1, wStart + 1] := y[1, 0], y[1, 1];
  }

  // The tiles of rows hStart and hStart + 1.
  method ConvolveRow(input: array2<real>, us: seq<array2<real>>, ghost ks: seq<Matrix>, hStart: nat, tilesW: nat, output: array2<real>)
    requires input != output && hStart + 4 <= input.Length0 && tilesW * 2 + 2 <= input.Length1
    requires output.Length0 == input.Length0 - 2 && output.Length1 == input.Length1 - 2
    requires AreFilters(ks)
    requires Transformed(us, ks, |ks|) && output !in us
    modifies output
    ensures forall i, j :: 0 <= i < output.Length0 && 0 <= j < output.Length1 ==>
      output[i, j] == if hStart <= i < hStart + 2 && j < tilesW * 2
                      then ChannelSum(Mat(input), input.Length1, ks, |ks|, i, j) else old(output[i, j])
  {
    hide ChannelSum, Transformed;
    ghost var x := Mat(input);
    for tw := 0 to tilesW
      modifies output
      invariant forall i, j :: 0 <= i < output.Length0 && 0 <= j < output.Length1 ==>
        output[i, j] == if hStart <= i < hStart + 2 && j < tw * 2
                        then ChannelSum(x, input.Length1, ks, |ks|, i, j) else old(output[i, j])
    {
      var y := ConvolveTile(input, us, ks, hStart, tw * 2);
      StoreTile(y, output, hStart, tw * 2);
    }
  }

  // Every output is written exactly when both output sides are even.
  lemma CoversAllIff(h: nat, w: nat, channels: nat)
    requires h >= 4 && w >= 4 && channels > 0
    ensures (forall i: nat, j: nat | i < h - 2 && j < w - 2 :: Covered(h, w, channels, i, j)) <==> h % 2 == 0 && w % 2 == 0
  {
    if h % 2 != 0 {
      assert !Covered(h, w, channels, h - 3, 0);
    } else if w % 2 != 0 {
      assert !Covered(h, w, channels, 0, w - 3);
    }
  }

  // All tiles.
  method ConvolveTiles(input: array2<real>, us: seq<array2<real>>, ghost ks: seq<Matrix>, tilesH: nat, tilesW: nat, output: array2<real>)
    requires input != output && tilesH * 2 + 2 <= input.Length0 && tilesW * 2 + 2 <= input.Length1
    requires output.Length0 == input.Length0 - 2 && output.Length1 == input.Length1 - 2
    requires AreFilters(ks)
    requires Transformed(us, ks, |ks|) && output !in us
    modifies output
    ensures forall i, j :: 0 <= i < output.Length0 && 0 <= j < output.Length1 ==>
      output[i, j] == if i < tilesH * 2 && j < tilesW * 2
                      then ChannelSum(Mat(input), input.Length1, ks, |ks|, i, j) else old(output[i, j])
  {
    hide ChannelSum, Transformed;
    ghost var x := Mat(input);
    for th := 0 to tilesH
      modifies output
      invariant forall i, j :: 0 <= i < output.Length0 && 0 <= j < output.Length1 ==>
        output[i, j] == if i < th * 2 && j < tilesW * 2
                        then ChannelSum(x, input.Length1, ks, |ks|, i, j) else old(output[i, j])
    {
      ConvolveRow(input, us, ks, th * 2, tilesW, output);
    }
  }

  method Convolve(input: array2<real>, kernel: array3<real>, output: array2<real>)
    requires kernel.Length1 == kernel.Length2 == 3 && input != output
    requires input.Length0 >= 4 && input.Length1 >= 4 && kernel.Length0 > 0 ==>
      output.Length0 == input.Length0 - 2 && output.Length1 == input.Length1 - 2
    modifies output
    ensures forall i, j :: 0 <= i < output.Length0 && 0 <= j < output.Length1 ==>
      output[i, j] == if Covered(input.Length0, input.Length1, kernel.Length0, i, j)
                      then ChannelSum(Mat(input), input.Length1, Filters(kernel), kernel.Length0, i, j)
                      else old(output[i, j])
  {
    var h, w, channels := input.Length0, input.Length1, kernel.Length0;
    if h < 4 || w < 4 || channels == 0 {
      return;
    }
    hide ChannelSum, Transformed;
    ghost var ks := Filters(kernel);
    var us := TransformFilters(kernel);
    ConvolveTiles(input, us, ks, (h - 2) / 2, (w - 2) / 2, output);
  }

  // ---------------------------------------------------------------- several planes

  // One h x w plane for each filter.
  ghost predicate ArePlanes(xs: seq<Matrix>, h: nat, w: nat) {
    forall c :: 0 <= c < |xs| ==> |xs[c]| == h && Rectangular(xs[c], w)
  }

  // The convolution of several channels: each filter correlated with its own plane.
  ghost function PlaneSum(xs: seq<Matrix>, h: nat, w: nat, ks: seq<Matrix>, n: nat, i: nat, j: nat): real
    requires AreFilters(ks) && ArePlanes(xs, h, w) && |xs| == |ks| && n <= |ks| && i + 3 <= h && j + 3 <= w
  {
    if n == 0 then 0.0 else PlaneSum(xs, h, w, ks, n - 1, i, j) + Correlation(xs[n - 1], w, ks[n - 1], i, j)
  }

  ghost predicate ZeroFilter(g: Matrix)
    requires |g| == 3 && Rectangular(g, 3)
  {
    forall i, j :: 0 <= i < 3 && 0 <= j < 3 ==> g[i][j] == 0.0
  }

  // Reading the first plane for every channel gives the convolution of these planes.
  ghost predicate FirstPlaneSuffices(xs: seq<Matrix>, h: nat, w: nat, ks: seq<Matrix>)
    requires AreFilters(ks) && ArePlanes(xs, h, w) && |xs| == |ks| > 0
  {
    forall i: nat, j: nat :: i + 3 <= h && j + 3 <= w ==>
      PlaneSum(xs, h, w, ks, |ks|, i, j) == ChannelSum(xs[0], w, ks, |ks|, i, j)
  }

  lemma {:induction false} LaterZeroFilters(xs: seq<Matrix>, h: nat, w: nat, ks: seq<Matrix>, n: nat, i: nat, j: nat)
    requires AreFilters(ks) && ArePlanes(xs, h, w) && |xs| == |ks| && 0 < n <= |ks| && i + 3 <= h && j + 3 <= w
    requires forall c :: 1 <= c < |ks| ==> ZeroFilter(ks[c])
    ensures PlaneSum(xs, h, w, ks, n, i, j) == ChannelSum(xs[0], w, ks, n, i, j)
  {
    if n == 1 {
      assert PlaneSum(xs, h, w, ks, 0, i, j) == ChannelSum(xs[0], w, ks, 0, i, j);
    } else {
      LaterZeroFilters(xs, h, w, ks, n - 1, i, j);
      ZeroFilterSum(xs[n - 1], w, ks[n - 1], i, j);
      ZeroFilterSum(xs[0], w, ks[n - 1], i, j);
    }
  }

  lemma ZeroFilterSum(x: Matrix, w: nat, g: Matrix, i: nat, j: nat)
    requires i + 3 <= |x| && Rectangular(x, w) && j + 3 <= w && |g| == 3 && Rectangular(g, 3) && ZeroFilter(g)
    ensures Correlation(x, w, g, i, j) == 0.0
  {
    assert g[0][0] == g[0][1] == g[0][2] == g[1][0] == g[1][1] == g[1][2] == g[2][0] == g[2][1] == g[2][2] == 0.0;
  }

  // Zero but for a one at (r, s).
  ghost function UnitPlane(h: nat, w: nat, r: nat, s: nat): (x: Matrix)
    ensures |x| == h && Rectangular(x, w)
    ensures forall i, j :: 0 <= i < h && 0 <= j < w ==> x[i][j] == if i == r && j == s then 1.0 else 0.0
  {
    seq(h, i requires 0 <= i < h => seq(w, j requires 0 <= j < w => if i == r && j == s then 1.0 else 0.0))
  }

  // The first output reads one filter entry off the unit plane, or nothing when the one lies elsewhere.
  lemma UnitPlaneSum(h: nat, w: nat, r: nat, s: nat, g: Matrix)
    requires h >= 3 && w >= 3 && |g| == 3 && Rectangular(g, 3)
    ensures Correlation(UnitPlane(h, w, r, s), w, g, 0, 0) == if r < 3 && s < 3 then g[r][s] else 0.0
  {
  }

  // Only plane c holds anything, a one at (r, s).
  ghost function UnitPlanes(n: nat, h: nat, w: nat, c: nat, r: nat, s: nat): (xs: seq<Matrix>)
    ensures |xs| == n
    ensures forall d :: 0 <= d < n ==> xs[d] == if d == c then UnitPlane(h, w, r, s) else UnitPlane(h, w, h, w)
    ensures ArePlanes(xs, h, w)
  {
    seq(n, d requires 0 <= d < n => if d == c then UnitPlane(h, w, r, s) else UnitPlane(h, w, h, w))
  }

  lemma {:induction false} UnitPlanesSum(ks: seq<Matrix>, h: nat, w: nat, c: nat, r: nat, s: nat, n: nat)
    requires AreFilters(ks) && h >= 3 && w >= 3 && 0 < c < |ks| && r < 3 && s < 3 && n <= |ks|
    ensures var xs := UnitPlanes(|ks|, h, w, c, r, s);
      PlaneSum(xs, h, w, ks, n, 0, 0) == (if n > c then ks[c][r][s] else 0.0) && ChannelSum(xs[0], w, ks, n, 0, 0) == 0.0
  {
    hide Correlation;
    if n > 0 {
      UnitPlanesSum(ks, h, w, c, r, s, n - 1);
      UnitPlaneSum(h, w, r, s, ks[n - 1]);
      UnitPlaneSum(h, w, h, w, ks[n - 1]);
    }
  }

  // Reading one plane for every channel is the convolution of all planes exactly when every filter
  // after the first is zero; planes on which a non-zero filter shows are the unit planes.
  lemma FirstPlaneIff(h: nat, w: nat, ks: seq<Matrix>)
    requires h >= 4 && w >= 4 && AreFilters(ks) && |ks| > 0
    ensures (forall xs | ArePlanes(xs, h, w) && |xs| == |ks| :: FirstPlaneSuffices(xs, h, w, ks)) <==>
            (forall c :: 1 <= c < |ks| ==> ZeroFilter(ks[c]))
  {
    hide PlaneSum, ChannelSum, Correlation;
    if forall c :: 1 <= c < |ks| ==> ZeroFilter(ks[c]) {
      forall xs, i: nat, j: nat | ArePlanes(xs, h, w) && |xs| == |ks| && i + 3 <= h && j + 3 <= w
        ensures PlaneSum(xs, h, w, ks, |ks|, i, j) == ChannelSum(xs[0], w, ks, |ks|, i, j)
      {
        LaterZeroFilters(xs, h, w, ks, |ks|, i, j);
      }
    } else {
      var c :| 1 <= c < |ks| && !ZeroFilter(ks[c]);
      var r: nat, s: nat :| r < 3 && s < 3 && ks[c][r][s] != 0.0;
      UnitPlanesSum(ks, h, w, c, r, s, |ks|);
      assert !FirstPlaneSuffices(UnitPlanes(|ks|, h, w, c, r, s), h, w, ks);
    }
  }
}
