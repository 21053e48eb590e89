// mini-ai-accelerator/src/mma.c: tiled matrix multiply with ragged edges.
module Mma {
  import opened Arithmetic
  import opened Tiling
  import opened Vectors

  const TILE_SIZE: nat := 8

  // The t x t corner of a tile product: d = c + a b.
  method TileMatmul(t: nat, a: array2<real>, b: array2<real>, c: array2<real>, d: array2<real>)
    requires t <= a.Length0 == a.Length1 == b.Length0 == b.Length1 == c.Length0 == c.Length1 == d.Length0 == d.Length1
    requires d != a && d != b
    modifies d
    ensures forall i, j :: 0 <= i < t && 0 <= j < t ==>
      d[i, j] == old(c[i, j]) + Dot(Mat(a)[i], Column(Mat(b), b.Length1, j), t)
    ensures forall i, j :: 0 <= i < d.Length0 && 0 <= j < d.Length1 && (i >= t || j >= t) ==> d[i, j] == old(d[i, j])
  {
    hide Dot, DotRange;
    ghost var ma, mb := Mat(a), Mat(b);
    for i := 0 to t
      invariant forall p, q :: 0 <= p < i && 0 <= q < t ==> d[p, q] == old(c[p, q]) + Dot(ma[p], Column(mb, b.Length1, q), t)
      invariant forall p, q :: 0 <= p < d.Length0 && 0 <= q < d.Length1 && (p >= i || q >= t) ==> d[p, q] == old(d[p, q])
    {
      for j := 0 to t
        invariant forall p, q :: 0 <= p < i && 0 <= q < t ==> d[p, q] == old(c[p, q]) + Dot(ma[p], Column(mb, b.Length1, q), t)
        invariant forall q :: 0 <= q < j ==> d[i, q] == old(c[i, q]) + Dot(ma[i], Column(mb, b.Length1, q), t)
        invariant forall p, q :: 0 <= p < d.Length0 && 0 <= q < d.Length1 && (p > i || (p == i && q >= j) || q >= t) ==>
          d[p, q] == old(d[p, q])
      {
        AccumulateEntry(t, a, b, c[i, j], i, j, d);
      }
    }
  }

  // d[i, j] = start + sum over k < t of a[i, k] b[k, j], accumulated in place.
  method AccumulateEntry(t: nat, a: array2<real>, b: array2<real>, start: real, i: nat, j: nat, d: array2<real>)
    requires t <= a.Length1 && t <= b.Length0 && i < a.Length0 && j < b.Length1
    requires i < d.Length0 && j < d.Length1 && d != a && d != b
    modifies d
    ensures a.Length1 >= t && d[i, j] == start + Dot(Mat(a)[i], Column(Mat(b), b.Length1, j), t)
    ensures forall p, q :: 0 <= p < d.Length0 && 0 <= q < d.Length1 && (p != i || q != j) ==> d[p, q] == old(d[p, q])
  {
    ghost var row, col := Mat(a)[i], Column(Mat(b), b.Length1, j);
    d[i, j] := start;
    for k := 0 to t
      invariant d[i, j] == start + Dot(row, col, k)
      invariant forall p, q :: 0 <= p < d.Length0 && 0 <= q < d.Length1 && (p != i || q != j) ==> d[p, q] == old(d[p, q])
    {
      d[i, j] := d[i, j] + a[i, k] * b[k, j];
    }
  }

  // Copies the t x t block of src at (r0, c0), with zeros past its edges.
  method LoadTile(src: array2<real>, r0: nat, c0: nat, t: nat, tile: array2<real>)
    requires t <= tile.Length0 && t <= tile.Length1 && tile != src
    modifies tile
    ensures IsTile(Mat(tile), Mat(src), src.Length1, r0, c0, t)
  {
    for i := 0 to t
      invariant forall p, q :: 0 <= p < i && 0 <= q < t ==>
        tile[p, q] == if r0 + p < src.Length0 && c0 + q < src.Length1 then src[r0 + p, c0 + q] else 0.0
    {
      for j := 0 to t
        invariant forall p, q :: 0 <= p < i && 0 <= q < t ==>
          tile[p, q] == if r0 + p < src.Length0 && c0 + q < src.Length1 then src[r0 + p, c0 + q] else 0.0
        invariant forall q :: 0 <= q < j ==>
          tile[i, q] == if r0 + i < src.Length0 && c0 + q < src.Length1 then src[r0 + i, c0 + q] else 0.0
      {
        tile[i, j] := if r0 + i < src.Length0 && c0 + j < src.Length1 then src[r0 + i, c0 + j] else 0.0;
      }
    }
  }

  // Copies the part of the tile that lies inside d back to d.
  method StoreTile(tile: array2<real>, r0: nat, c0: nat, t: nat, d: array2<real>)
    requires t <= tile.Length0 && t <= tile.Length1 && tile != d
    modifies d
    ensures forall i, j :: 0 <= i < d.Length0 && 0 <= j < d.Length1 ==>
      d[i, j] == if InBlock(i, j, r0, c0, t) then tile[i - r0, j - c0] else old(d[i, j])
  {
    for i := 0 to t
      invariant forall p, q :: 0 <= p < d.Length0 && 0 <= q < d.Length1 ==>
        d[p, q] == if InBlock(p, q, r0, c0, t) && p < r0 + i then tile[p - r0, q - c0] else old(d[p, q])
    {
      for j := 0 to t
        invariant forall p, q :: 0 <= p < d.Length0 && 0 <= q < d.Length1 ==>
          d[p, q] == if InBlock(p, q, r0, c0, t) && (p < r0 + i || (p == r0 + i && q < c0 + j))
                     then tile[p - r0, q - c0] else old(d[p, q])
      {
        if r0 + i < d.Length0 && c0 + j < d.Length1 {
          d[r0 + i, c0 + j] := tile[i, j];
        }
      }
    }
  }

  // The padded tiles at (r0, k0), (k0, c0) and (r0, c0), multiplied and added.
  method ComputeTile(t: nat, a: array2<real>, b: array2<real>, d: array2<real>, r0: nat, c0: nat, k0: nat) returns (tileD: array2<real>)
    requires t <= TILE_SIZE
    requires a.Length1 == b.Length0 && d.Length0 == a.Length0 && d.Length1 == b.Length1
    ensures fresh(tileD) && tileD.Length0 == tileD.Length1 == TILE_SIZE
    ensures forall i, j :: InBlock(i, j, r0, c0, t) && i < d.Length0 && j < d.Length1 ==>
      TakesStep(Mat(a), Mat(b), b.Length1, i, j, k0, t, d[i, j], tileD[i - r0, j - c0])
  {
    hide Dot, DotRange, IsTile, TakesStep;
    var tileA, tileB := new real[TILE_SIZE, TILE_SIZE], new real[TILE_SIZE, TILE_SIZE];
    var tileC := new real[TILE_SIZE, TILE_SIZE];
    LoadTile(a, r0, k0, t, tileA);
    LoadTile(b, k0, c0, t, tileB);
    LoadTile(d, r0, c0, t, tileC);
    tileD := new real[TILE_SIZE, TILE_SIZE];
    TileMatmul(t, tileA, tileB, tileC, tileD);
    StepsTaken(Mat(a), Mat(b), b.Length1, r0, c0, k0, t, Mat(tileA), Mat(tileB), Mat(tileC), Mat(tileD));
    TileEntry(Mat(tileC), Mat(d), d.Length1, r0, c0, t);
  }

  // One tile step: the entries of a block take the next t products.
  method MultiplyBlock(t: nat, a: array2<real>, b: array2<real>, d: array2<real>, r0: nat, c0: nat, k0: nat, ghost base: Matrix)
    requires t <= TILE_SIZE && d != a && d != b
    requires a.Length1 == b.Length0 && d.Length0 == a.Length0 && d.Length1 == b.Length1
    requires |base| == d.Length0 && Rectangular(base, d.Length1)
    requires forall i, j :: 0 <= i < d.Length0 && 0 <= j < d.Length1 && InBlock(i, j, r0, c0, t) ==>
      d[i, j] == Entry(Mat(a), Mat(b), b.Length1, base, i, j, Min(k0, b.Length0))
    modifies d
    ensures forall i, j :: 0 <= i < d.Length0 && 0 <= j < d.Length1 ==>
      d[i, j] == if InBlock(i, j, r0, c0, t) then Entry(Mat(a), Mat(b), b.Length1, base, i, j, Min(k0 + t, b.Length0))
                 else old(d[i, j])
  {
    hide Entry, TakesStep;
    ghost var ma, mb, n := Mat(a), Mat(b), b.Length1;
    var tileD := ComputeTile(t, a, b, d, r0, c0, k0);
    forall i, j | 0 <= i < d.Length0 && 0 <= j < d.Length1 && InBlock(i, j, r0, c0, t)
      ensures tileD[i - r0, j - c0] == Entry(ma, mb, n, base, i, j, Min(k0 + t, b.Length0))
    {
      assert TakesStep(ma, mb, n, i, j, k0, t, d[i, j], tileD[i - r0, j - c0]);
      ExtendEntry(ma, mb, n, base, i, j, k0, t, tileD[i - r0, j - c0]);
    }
    StoreTile(tileD, r0, c0, t, d);
  }

  // d = c + a b, for any sizes, with tiles of side t.
  method LargeMatmul(t: nat, a: array2<real>, b: array2<real>, c: array2?<real>, d: array2<real>)
    requires 1 <= t <= TILE_SIZE && d != a && d != b
    requires a.Length1 == b.Length0 && d.Length0 == a.Length0 && d.Length1 == b.Length1
    requires c != null ==> c.Length0 == d.Length0 && c.Length1 == d.Length1
    modifies d
    ensures forall i, j :: 0 <= i < d.Length0 && 0 <= j < d.Length1 ==>
      d[i, j] == (if c == null then 0.0 else old(c[i, j])) + Dot(Mat(a)[i], Column(Mat(b), b.Length1, j), b.Length0)
  {
    InitialValues(c, d);
    MultiplyTiles(t, a, b, d);
  }

  // All tile steps of one block.
  method FinishBlock(t: nat, a: array2<real>, b: array2<real>, d: array2<real>, r0: nat, c0: nat, ghost base: Matrix)
    requires 1 <= t <= TILE_SIZE && d != a && d != b
    requires a.Length1 == b.Length0 && d.Length0 == a.Length0 && d.Length1 == b.Length1
    requires |base| == d.Length0 && Rectangular(base, d.Length1)
    requires forall i, j :: 0 <= i < d.Length0 && 0 <= j < d.Length1 && InBlock(i, j, r0, c0, t) ==>
      d[i, j] == Entry(Mat(a), Mat(b), b.Length1, base, i, j, 0)
    modifies d
    ensures forall i, j :: 0 <= i < d.Length0 && 0 <= j < d.Length1 ==>
      d[i, j] == if InBlock(i, j, r0, c0, t) then Entry(Mat(a), Mat(b), b.Length1, base, i, j, b.Length0)
                 else old(d[i, j])
  {
    hide Entry, InBlock;
    ghost var ma, mb, n := Mat(a), Mat(b), b.Length1;
    var kTiles := TileCount(b.Length0, t);
    for ki := 0 to kTiles
      modifies d
      invariant forall i, j :: 0 <= i < d.Length0 && 0 <= j < d.Length1 ==>
        d[i, j] == if InBlock(i, j, r0, c0, t) then Entry(ma, mb, n, base, i, j, Min(ki * t, b.Length0)) else old(d[i, j])
    {
      NextTile(ki, t);
      MultiplyBlock(t, a, b, d, r0, c0, ki * t, base);
    }
  }

  // The tile loops: d += a b.
  method MultiplyTiles(t: nat, a: array2<real>, b: array2<real>, d: array2<real>)
    requires 1 <= t <= TILE_SIZE && d != a && d != b
    requires a.Length1 == b.Length0 && d.Length0 == a.Length0 && d.Length1 == b.Length1
    modifies d
    ensures forall i, j :: 0 <= i < d.Length0 && 0 <= j < d.Length1 ==>
      d[i, j] == old(d[i, j]) + Dot(Mat(a)[i], Column(Mat(b), b.Length1, j), b.Length0)
  {
    hide DotRange;
    ghost var ma, mb, n, base := Mat(a), Mat(b), b.Length1, Mat(d);
    var mTiles, nTiles := TileCount(d.Length0, t), TileCount(d.Length1, t);
    forall i, j | 0 <= i < d.Length0 && 0 <= j < d.Length1 ensures d[i, j] == Entry(ma, mb, n, base, i, j, 0) {
      EmptyEntry(ma, mb, n, base, i, j);
    }
    for mi := 0 to mTiles
      modifies d
      invariant forall i, j :: 0 <= i < d.Length0 && 0 <= j < d.Length1 ==>
        d[i, j] == Entry(ma, mb, n, base, i, j, if i < mi * t then b.Length0 else 0)
    {
      NextTile(mi, t);
      FinishBlocks(t, a, b, d, mi * t, nTiles, base);
    }
  }

  // The blocks of the rows from r0.
  method FinishBlocks(t: nat, a: array2<real>, b: array2<real>, d: array2<real>, r0: nat, nTiles: nat, ghost base: Matrix)
    requires 1 <= t <= TILE_SIZE && d != a && d != b
    requires a.Length1 == b.Length0 && d.Length0 == a.Length0 && d.Length1 == b.Length1
    requires |base| == d.Length0 && Rectangular(base, d.Length1)
    requires nTiles * t >= d.Length1
    requires forall i, j :: 0 <= i < d.Length0 && 0 <= j < d.Length1 && r0 <= i < r0 + t ==>
      d[i, j] == Entry(Mat(a), Mat(b), b.Length1, base, i, j, 0)
    modifies d
    ensures forall i, j :: 0 <= i < d.Length0 && 0 <= j < d.Length1 ==>
      d[i, j] == if r0 <= i < r0 + t then Entry(Mat(a), Mat(b), b.Length1, base, i, j, b.Length0) else old(d[i, j])
  {
    hide Entry;
    ghost var ma, mb, n := Mat(a), Mat(b), b.Length1;
    for ni := 0 to nTiles
      modifies d
      invariant forall i, j :: 0 <= i < d.Length0 && 0 <= j < d.Length1 ==>
        d[i, j] == if r0 <= i < r0 + t then Entry(ma, mb, n, base, i, j, if j < ni * t then b.Length0 else 0) else old(d[i, j])
    {
      NextTile(ni, t);
      FinishBlock(t, a, b, d, r0, ni * t, base);
    }
  }
}
