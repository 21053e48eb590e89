// Block decomposition of a matrix product, shared by the two tiled multiplies.
module Tiling {
  import opened Arithmetic
  import opened Vectors

  // Number of tiles of side t that cover n elements.
  function TileCount(n: nat, t: nat): (r: nat)
    requires t > 0
    ensures r * t >= n
    ensures r > 0 ==> (r - 1) * t < n
  {
    DivisionLaw(n + t - 1, t);
    Distribute((n + t - 1) / t, 1, t);
    (n + t - 1) / t
  }

  lemma NextTile(i: nat, t: nat)
    ensures (i + 1) * t == i * t + t
  {
    Distribute(i, -1, t);
  }

  // base[i][j] plus the first k products of row i of a with column j of b.
  ghost function Entry(a: Matrix, b: Matrix, width: nat, base: Matrix, i: nat, j: nat, k: nat): real
    requires i < |a| && |a[i]| == |b| && Rectangular(b, width) && j < width
    requires i < |base| && Rectangular(base, width) && k <= |b|
  {
    base[i][j] + DotRange(a[i], Column(b, width, j), 0, k)
  }

  ghost predicate Shapes(a: Matrix, b: Matrix, width: nat, base: Matrix) {
    Rectangular(a, |b|) && Rectangular(b, width) && |base| == |a| && Rectangular(base, width)
  }

  lemma EmptyEntry(a: Matrix, b: Matrix, width: nat, base: Matrix, i: nat, j: nat)
    requires Shapes(a, b, width, base) && i < |a| && j < width
    ensures Entry(a, b, width, base, i, j, 0) == base[i][j]
  {
  }

  // A zero-padded pair of tile rows contributes exactly the products of its part of the range.
  lemma {:induction false} PaddedDot(ta: seq<real>, tb: seq<real>, a: seq<real>, b: seq<real>, k0: nat, n: nat)
    requires n <= |ta| && n <= |tb| && |a| == |b|
    requires forall k :: 0 <= k < n && k0 + k < |a| ==> ta[k] == a[k0 + k] && tb[k] == b[k0 + k]
    requires forall k :: 0 <= k < n && k0 + k >= |a| ==> ta[k] == 0.0
    ensures Dot(ta, tb, n) == DotRange(a, b, Min(k0, |a|), Min(k0 + n, |a|))
  {
    if n > 0 {
      PaddedDot(ta, tb, a, b, k0, n - 1);
    }
  }

  // y is x plus the products k0 <= k < k0 + t of row i of a with column j of b.
  ghost predicate TakesStep(a: Matrix, b: Matrix, width: nat, i: nat, j: nat, k0: nat, t: nat, x: real, y: real)
    requires i < |a| && |a[i]| == |b| && Rectangular(b, width) && j < width
  {
    y == x + DotRange(a[i], Column(b, width, j), Min(k0, |b|), Min(k0 + t, |b|))
  }

  lemma StepTaken(a: Matrix, b: Matrix, width: nat, i: nat, j: nat, k0: nat, t: nat, x: real, y: real, ta: seq<real>, tb: seq<real>)
    requires i < |a| && |a[i]| == |b| && Rectangular(b, width) && j < width
    requires t <= |ta| && t <= |tb|
    requires forall k :: 0 <= k < t ==> ta[k] == if k0 + k < |b| then a[i][k0 + k] else 0.0
    requires forall k :: 0 <= k < t ==> tb[k] == if k0 + k < |b| then b[k0 + k][j] else 0.0
    requires y == x + Dot(ta, tb, t)
    ensures TakesStep(a, b, width, i, j, k0, t, x, y)
  {
    PaddedDot(ta, tb, a[i], Column(b, width, j), k0, t);
  }

  ghost predicate InBlock(i: int, j: int, r0: int, c0: int, t: int) {
    r0 <= i < r0 + t && c0 <= j < c0 + t
  }

  // The t x t block of src at (r0, c0), with zeros past its edges.
  ghost predicate IsTile(tile: Matrix, src: Matrix, width: nat, r0: nat, c0: nat, t: nat)
    requires Rectangular(src, width)
  {
    |tile| >= t && (forall i :: 0 <= i < t ==> |tile[i]| >= t) &&
    forall i, j :: 0 <= i < t && 0 <= j < t ==>
      tile[i][j] == if r0 + i < |src| && c0 + j < width then src[r0 + i][c0 + j] else 0.0
  }

  // Multiplying the tiles of a and b onto a tile tc advances every entry of the block.
  lemma StepsTaken(a: Matrix, b: Matrix, width: nat, r0: nat, c0: nat, k0: nat, t: nat, ta: Matrix, tb: Matrix, tc: Matrix, td: Matrix)
    requires Rectangular(a, |b|) && Rectangular(b, width)
    requires IsTile(ta, a, |b|, r0, k0, t) && IsTile(tb, b, width, k0, c0, t)
    requires t <= |tb| == |tc| == |td| && Rectangular(tb, |tb|) && Rectangular(tc, |tb|) && Rectangular(td, |tb|)
    requires forall i, j :: 0 <= i < t && 0 <= j < t ==> td[i][j] == tc[i][j] + Dot(ta[i], Column(tb, |tb|, j), t)
    ensures forall i, j :: InBlock(i, j, r0, c0, t) && i < |a| && j < width ==>
      TakesStep(a, b, width, i, j, k0, t, tc[i - r0][j - c0], td[i - r0][j - c0])
  {
    hide Dot, TakesStep;
    forall i, j | InBlock(i, j, r0, c0, t) && i < |a| && j < width
      ensures TakesStep(a, b, width, i, j, k0, t, tc[i - r0][j - c0], td[i - r0][j - c0])
    {
      StepTaken(a, b, width, i, j, k0, t, tc[i - r0][j - c0], td[i - r0][j - c0], ta[i - r0], Column(tb, |tb|, j - c0));
    }
  }

  lemma TileEntry(tile: Matrix, src: Matrix, width: nat, r0: nat, c0: nat, t: nat)
    requires Rectangular(src, width) && IsTile(tile, src, width, r0, c0, t)
    ensures forall i, j :: InBlock(i, j, r0, c0, t) && i < |src| && j < width ==> tile[i - r0][j - c0] == src[i][j]
  {
  }

  // One tile step advances an entry from k0 products to k0 + t.
  lemma ExtendEntry(a: Matrix, b: Matrix, width: nat, base: Matrix, i: nat, j: nat, k0: nat, t: nat, y: real)
    requires Shapes(a, b, width, base) && i < |a| && j < width
    requires TakesStep(a, b, width, i, j, k0, t, Entry(a, b, width, base, i, j, Min(k0, |b|)), y)
    ensures y == Entry(a, b, width, base, i, j, Min(k0 + t, |b|))
  {
    DotSplit(a[i], Column(b, width, j), 0, Min(k0, |b|), Min(k0 + t, |b|));
  }

  // The starting value of an entry: the addend, or zero when there is none.
  function Addend(c: array2?<real>, i: nat, j: nat): real
    requires c != null ==> i < c.Length0 && j < c.Length1
    reads c
  {
    if c == null then 0.0 else c[i, j]
  }

  // d starts as the addend.
  method InitialValues(c: array2?<real>, d: array2<real>)
    requires c != null ==> c.Length0 == d.Length0 && c.Length1 == d.Length1
    modifies d
    ensures forall i, j :: 0 <= i < d.Length0 && 0 <= j < d.Length1 ==> d[i, j] == old(Addend(c, i, j))
  {
    for i := 0 to d.Length0
      invariant forall p, q :: 0 <= p < d.Length0 && 0 <= q < d.Length1 ==> d[p, q] == if p < i then old(Addend(c, p, q)) else old(d[p, q])
    {
      for j := 0 to d.Length1
        invariant forall p, q :: 0 <= p < d.Length0 && 0 <= q < d.Length1 ==>
          d[p, q] == if p < i || (p == i && q < j) then old(Addend(c, p, q)) else old(d[p, q])
      {
        d[i, j] := if c == null then 0.0 else c[i, j];
      }
    }
  }
}
