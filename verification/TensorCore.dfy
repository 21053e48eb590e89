// mini-ai-accelerator/src/tensor_core.c: matrix multiply by repeated 16x16x16 fragment operations.
//
// Rounding an input to the fragment's precision is a parameter: any function that keeps zero.
module TensorCores {
  import opened Arithmetic
  import opened Tiling
  import opened Vectors

  const TC: nat := 16

  function Rounded(round: real -> real, x: Matrix): (r: Matrix)
    ensures |r| == |x|
    ensures forall i :: 0 <= i < |x| ==> |r[i]| == |x[i]|
    ensures forall i, j :: 0 <= i < |x| && 0 <= j < |x[i]| ==> r[i][j] == round(x[i][j])
  {
    seq(|x|, i requires 0 <= i < |x| => seq(|x[i]|, j requires 0 <= j < |x[i]| => round(x[i][j])))
  }

  // Zero padding survives rounding.
  lemma RoundedTile(round: real -> real, tile: Matrix, src: Matrix, width: nat, r0: nat, c0: nat, t: nat)
    requires round(0.0) == 0.0
    requires Rectangular(src, width) && IsTile(tile, src, width, r0, c0, t)
    ensures IsTile(Rounded(round, tile), Rounded(round, src), width, r0, c0, t)
  {
  }

  class Fragment {
    const a: array2<real>
    const b: array2<real>
    const c: array2<real>
    const d: array2<real>
    var m: nat
    var n: nat
    var k: nat

    ghost predicate Valid()
      reads this
    {
      a.Length0 == a.Length1 == b.Length0 == b.Length1 == c.Length0 == c.Length1 == d.Length0 == d.Length1 == TC &&
      a != b && a != c && a != d && b != c && b != d && c != d && m <= TC && n <= TC && k <= TC
    }

    ghost predicate Apart(x: array2<real>) {
      x != a && x != b && x != c && x != d
    }

    constructor (rows: nat, cols: nat, depth: nat)
      ensures Valid() && fresh(a) && fresh(b) && fresh(c) && fresh(d)
      ensures m == Min(rows, TC) && n == Min(cols, TC) && k == Min(depth, TC)
      ensures forall i, j :: 0 <= i < TC && 0 <= j < TC ==> d[i, j] == 0.0
    {
      a := new real[TC, TC]((i, j) => 0.0);
      b := new real[TC, TC]((i, j) => 0.0);
      c := new real[TC, TC]((i, j) => 0.0);
      d := new real[TC, TC]((i, j) => 0.0);
      m, n, k := Min(rows, TC), Min(cols, TC), Min(depth, TC);
    }
  }

  class TensorCore {
    const round: real -> real
    var totalMmaOps: nat

    constructor (round: real -> real)
      ensures this.round == round && totalMmaOps == 0
    {
      this.round := round;
      totalMmaOps := 0;
    }

    // d = c + round(a) round(b) on the m x n corner.
    method Mma(frag: Fragment)
      requires frag.Valid()
      modifies frag.d, `totalMmaOps
      ensures forall i, j :: 0 <= i < frag.m && 0 <= j < frag.n ==>
        frag.d[i, j] == frag.c[i, j] + Dot(Rounded(round, Mat(frag.a))[i], Column(Rounded(round, Mat(frag.b)), TC, j), frag.k)
      ensures forall i, j :: 0 <= i < TC && 0 <= j < TC && (i >= frag.m || j >= frag.n) ==> frag.d[i, j] == old(frag.d[i, j])
      ensures totalMmaOps == old(totalMmaOps) + 1
    {
      hide Dot, DotRange, Rounded, Column;
      ghost var ra, rb := Rounded(round, Mat(frag.a)), Rounded(round, Mat(frag.b));
      for i := 0 to frag.m
        modifies frag.d
        invariant forall p, q :: 0 <= p < i && 0 <= q < frag.n ==> frag.d[p, q] == frag.c[p, q] + Dot(ra[p], Column(rb, TC, q), frag.k)
        invariant forall p, q :: 0 <= p < TC && 0 <= q < TC && (p >= i || q >= frag.n) ==> frag.d[p, q] == old(frag.d[p, q])
      {
        for j := 0 to frag.n
          modifies frag.d
          invariant forall p, q :: 0 <= p < i && 0 <= q < frag.n ==> frag.d[p, q] == frag.c[p, q] + Dot(ra[p], Column(rb, TC, q), frag.k)
          invariant forall q :: 0 <= q < j ==> frag.d[i, q] == frag.c[i, q] + Dot(ra[i], Column(rb, TC, q), frag.k)
          invariant forall p, q :: 0 <= p < TC && 0 <= q < TC && (p > i || (p == i && q >= j) || q >= frag.n) ==>
            frag.d[p, q] == old(frag.d[p, q])
        {
          frag.d[i, j] := Sum(frag, i, j);
        }
      }
      totalMmaOps := totalMmaOps + 1;
    }

    method Sum(frag: Fragment, i: nat, j: nat) returns (sum: real)
      requires frag.Valid() && i < frag.m && j < frag.n
      ensures sum == frag.c[i, j] + Dot(Rounded(round, Mat(frag.a))[i], Column(Rounded(round, Mat(frag.b)), TC, j), frag.k)
    {
      ghost var row, col := Rounded(round, Mat(frag.a))[i], Column(Rounded(round, Mat(frag.b)), TC, j);
      sum := frag.c[i, j];
      for p := 0 to frag.k
        invariant sum == frag.c[i, j] + Dot(row, col, p)
      {
        sum := sum + round(frag.a[i, p]) * round(frag.b[p, j]);
      }
    }

    // Loads the operand tiles of one step.
    method LoadOperands(frag: Fragment, a: array2<real>, b: array2<real>, r0: nat, c0: nat, k0: nat)
      requires round(0.0) == 0.0
      requires frag.Valid() && frag.Apart(a) && frag.Apart(b)
      requires a.Length1 == b.Length0 && r0 < a.Length0 && c0 < b.Length1 && k0 < b.Length0
      modifies frag.a, frag.b
      ensures IsTile(Rounded(round, Mat(frag.a)), Rounded(round, Mat(a)), b.Length0, r0, k0, TC)
      ensures IsTile(Rounded(round, Mat(frag.b)), Rounded(round, Mat(b)), b.Length1, k0, c0, TC)
    {
      hide IsTile;
      LoadPadded(a, r0, Min(TC, a.Length0 - r0), k0, Min(TC, a.Length1 - k0), frag.a);
      LoadPadded(b, k0, Min(TC, b.Length0 - k0), c0, Min(TC, b.Length1 - c0), frag.b);
      RoundedTile(round, Mat(frag.a), Mat(a), a.Length1, r0, k0, TC);
      RoundedTile(round, Mat(frag.b), Mat(b), b.Length1, k0, c0, TC);
    }

    // One tile step of a block, accumulated in the fragment.
    method StepBlock(frag: Fragment, a: array2<real>, b: array2<real>, r0: nat, c0: nat, k0: nat, ghost base: Matrix)
      requires round(0.0) == 0.0
      requires frag.Valid() && frag.Apart(a) && frag.Apart(b)
      requires a.Length1 == b.Length0 && r0 < a.Length0 && c0 < b.Length1 && k0 < b.Length0
      requires |base| == a.Length0 && Rectangular(base, b.Length1)
      requires Holds(frag.c, Rounded(round, Mat(a)), Rounded(round, Mat(b)), b.Length1, base, r0, c0, k0)
      modifies frag, frag.a, frag.b, frag.c, frag.d, `totalMmaOps
      ensures frag.Valid() && totalMmaOps == old(totalMmaOps) + 1
      ensures Holds(frag.c, Rounded(round, Mat(a)), Rounded(round, Mat(b)), b.Length1, base, r0, c0, k0 + TC)
      ensures Holds(frag.d, Rounded(round, Mat(a)), Rounded(round, Mat(b)), b.Length1, base, r0, c0, k0 + TC)
    {
      hide Dot, DotRange, IsTile, HoldsValues, Rounded;
      ghost var ra, rb, width := Rounded(round, Mat(a)), Rounded(round, Mat(b)), b.Length1;
      LoadOperands(frag, a, b, r0, c0, k0);
      frag.m, frag.n, frag.k := TC, TC, TC;
      ghost var ta, tb, tc := Rounded(round, Mat(frag.a)), Rounded(round, Mat(frag.b)), Mat(frag.c);
      Mma(frag);
      HoldsNext(ra, rb, width, base, r0, c0, k0, ta, tb, tc, Mat(frag.d));
      CopyTile(frag.d, frag.c);
    }

    // All tile steps of one block.
    method AccumulateBlock(frag: Fragment, a: array2<real>, b: array2<real>, r0: nat, c0: nat, ghost base: Matrix)
      requires round(0.0) == 0.0
      requires frag.Valid() && frag.Apart(a) && frag.Apart(b)
      requires a.Length1 == b.Length0 && r0 < a.Length0 && c0 < b.Length1
      requires |base| == a.Length0 && Rectangular(base, b.Length1)
      requires Holds(frag.c, Rounded(round, Mat(a)), Rounded(round, Mat(b)), b.Length1, base, r0, c0, 0)
      modifies frag, frag.a, frag.b, frag.c, frag.d, `totalMmaOps
      ensures frag.Valid() && totalMmaOps == old(totalMmaOps) + TileCount(b.Length0, TC)
      ensures b.Length0 == 0 ==> forall i, j :: 0 <= i < TC && 0 <= j < TC ==> frag.d[i, j] == old(frag.d[i, j])
      ensures b.Length0 > 0 ==> Holds(frag.d, Rounded(round, Mat(a)), Rounded(round, Mat(b)), b.Length1, base, r0, c0, b.Length0)
    {
      hide Entry, InBlock;
      ghost var ra, rb, width := Rounded(round, Mat(a)), Rounded(round, Mat(b)), b.Length1;
      var kTiles := TileCount(b.Length0, TC);
      for kt := 0 to kTiles
        modifies frag, frag.a, frag.b, frag.c, frag.d, `totalMmaOps
        invariant frag.Valid()
        invariant totalMmaOps == old(totalMmaOps) + kt
        invariant Holds(frag.c, ra, rb, width, base, r0, c0, kt * TC)
        invariant kt > 0 ==> Holds(frag.d, ra, rb, width, base, r0, c0, kt * TC)
        invariant b.Length0 == 0 ==> forall i, j :: 0 <= i < TC && 0 <= j < TC ==> frag.d[i, j] == old(frag.d[i, j])
      {
        StepBlock(frag, a, b, r0, c0, kt * TC, base);
      }
    }

    // One block: load, accumulate, store.
    method FinishBlock(frag: Fragment, a: array2<real>, b: array2<real>, d: array2<real>, r0: nat, c0: nat, ghost base: Matrix)
      requires round(0.0) == 0.0
      requires frag.Valid() && frag.Apart(a) && frag.Apart(b) && frag.Apart(d) && d != a && d != b
      requires a.Length1 == b.Length0 && d.Length0 == a.Length0 && d.Length1 == b.Length1
      requires r0 < d.Length0 && c0 < d.Length1
      requires |base| == d.Length0 && Rectangular(base, d.Length1)
      requires forall i, j :: InBlock(i, j, r0, c0, TC) && i < d.Length0 && j < d.Length1 ==> d[i, j] == base[i][j]
      requires b.Length0 == 0 ==> forall i, j :: 0 <= i < TC && 0 <= j < TC ==> frag.d[i, j] == 0.0
      modifies frag, frag.a, frag.b, frag.c, frag.d, d, `totalMmaOps
      ensures frag.Valid()
      ensures b.Length0 == 0 ==> forall i, j :: 0 <= i < TC && 0 <= j < TC ==> frag.d[i, j] == 0.0
      ensures totalMmaOps == old(totalMmaOps) + TileCount(b.Length0, TC)
      ensures forall i, j :: 0 <= i < d.Length0 && 0 <= j < d.Length1 ==>
        d[i, j] == if InBlock(i, j, r0, c0, TC)
                   then Result(Rounded(round, Mat(a)), Rounded(round, Mat(b)), b.Length1, base, i, j) else old(d[i, j])
    {
      hide Entry, IsTile;
      ghost var ra, rb, width := Rounded(round, Mat(a)), Rounded(round, Mat(b)), b.Length1;
      var rows, cols := Min(TC, d.Length0 - r0), Min(TC, d.Length1 - c0);
      LoadPadded(d, r0, rows, c0, cols, frag.c);
      HoldsNone(ra, rb, width, base, r0, c0, Mat(d), Mat(frag.c));
      AccumulateBlock(frag, a, b, r0, c0, base);
      StoreBlock(frag.d, r0, rows, c0, cols, d);
    }

    // The blocks of the rows from r0.
    method FinishBlocks(frag: Fragment, a: array2<real>, b: array2<real>, d: array2<real>, r0: nat, ghost base: Matrix)
      requires round(0.0) == 0.0
      requires frag.Valid() && frag.Apart(a) && frag.Apart(b) && frag.Apart(d) && d != a && d != b
      requires a.Length1 == b.Length0 && d.Length0 == a.Length0 && d.Length1 == b.Length1
      requires r0 < d.Length0
      requires |base| == d.Length0 && Rectangular(base, d.Length1)
      requires forall i, j :: r0 <= i < r0 + TC && i < d.Length0 && 0 <= j < d.Length1 ==> d[i, j] == base[i][j]
      requires b.Length0 == 0 ==> forall i, j :: 0 <= i < TC && 0 <= j < TC ==> frag.d[i, j] == 0.0
      modifies frag, frag.a, frag.b, frag.c, frag.d, d, `totalMmaOps
      ensures frag.Valid()
      ensures b.Length0 == 0 ==> forall i, j :: 0 <= i < TC && 0 <= j < TC ==> frag.d[i, j] == 0.0
      ensures totalMmaOps == old(totalMmaOps) + TileCount(d.Length1, TC) * TileCount(b.Length0, TC)
      ensures forall i, j :: 0 <= i < d.Length0 && 0 <= j < d.Length1 ==>
        d[i, j] == if r0 <= i < r0 + TC
                   then Result(Rounded(round, Mat(a)), Rounded(round, Mat(b)), b.Length1, base, i, j) else old(d[i, j])
    {
      hide Result;
      ghost var ra, rb, width := Rounded(round, Mat(a)), Rounded(round, Mat(b)), b.Length1;
      var nTiles := TileCount(d.Length1, TC);
      ghost var kTiles := TileCount(b.Length0, TC);
      for nt := 0 to nTiles
        modifies frag, frag.a, frag.b, frag.c, frag.d, d, `totalMmaOps
        invariant frag.Valid()
        invariant totalMmaOps == old(totalMmaOps) + nt * kTiles
        invariant b.Length0 == 0 ==> forall i, j :: 0 <= i < TC && 0 <= j < TC ==> frag.d[i, j] == 0.0
        invariant forall i, j :: 0 <= i < d.Length0 && 0 <= j < d.Length1 ==>
          d[i, j] == if r0 <= i < r0 + TC && j < nt * TC then Result(ra, rb, width, base, i, j) else old(d[i, j])
      {
        NextTile(nt, kTiles);
        FinishBlock(frag, a, b, d, r0, nt * TC, base);
      }
    }

    // The tile loops over d, which starts as the addend.
    method RunTiles(frag: Fragment, a: array2<real>, b: array2<real>, d: array2<real>)
      requires round(0.0) == 0.0
      requires frag.Valid() && frag.Apart(a) && frag.Apart(b) && frag.Apart(d) && d != a && d != b
      requires a.Length1 == b.Length0 && d.Length0 == a.Length0 && d.Length1 == b.Length1
      requires forall i, j :: 0 <= i < TC && 0 <= j < TC ==> frag.d[i, j] == 0.0
      modifies frag, frag.a, frag.b, frag.c, frag.d, d, `totalMmaOps
      ensures totalMmaOps == old(totalMmaOps)
        + TileCount(d.Length0, TC) * (TileCount(d.Length1, TC) * TileCount(b.Length0, TC))
      ensures forall i, j :: 0 <= i < d.Length0 && 0 <= j < d.Length1 ==>
        d[i, j] == Result(Rounded(round, Mat(a)), Rounded(round, Mat(b)), b.Length1, old(Mat(d)), i, j)
    {
      hide Result, Rounded, TileCount;
      ghost var ra, rb, width, base := Rounded(round, Mat(a)), Rounded(round, Mat(b)), b.Length1, Mat(d);
      var mTiles := TileCount(d.Length0, TC);
      ghost var perRow := TileCount(d.Length1, TC) * TileCount(b.Length0, TC);
      for mt := 0 to mTiles
        modifies frag, frag.a, frag.b, frag.c, frag.d, d, `totalMmaOps
        invariant frag.Valid()
        invariant totalMmaOps == old(totalMmaOps) + mt * perRow
        invariant b.Length0 == 0 ==> forall i, j :: 0 <= i < TC && 0 <= j < TC ==> frag.d[i, j] == 0.0
        invariant forall i, j :: 0 <= i < d.Length0 && 0 <= j < d.Length1 ==>
          d[i, j] == if i < mt * TC then Result(ra, rb, width, base, i, j) else base[i][j]
      {
        NextTile(mt, perRow);
        FinishBlocks(frag, a, b, d, mt * TC, base);
      }
    }

    // d = c + round(a) round(b) for any sizes; with no products to add, d is cleared.
    method LargeMatmul(a: array2<real>, b: array2<real>, c: array2?<real>, d: array2<real>)
      requires round(0.0) == 0.0
      requires d != a && d != b
      requires a.Length1 == b.Length0 && d.Length0 == a.Length0 && d.Length1 == b.Length1
      requires c != null ==> c.Length0 == d.Length0 && c.Length1 == d.Length1
      modifies d, `totalMmaOps
      ensures totalMmaOps == old(totalMmaOps)
        + TileCount(d.Length0, TC) * (TileCount(d.Length1, TC) * TileCount(b.Length0, TC))
      ensures forall i, j :: 0 <= i < d.Length0 && 0 <= j < d.Length1 ==>
        d[i, j] == if b.Length0 == 0 then 0.0
                   else (if c == null then 0.0 else old(c[i, j])) +
                        Dot(Rounded(round, Mat(a))[i], Column(Rounded(round, Mat(b)), b.Length1, j), b.Length0)
    {
      hide DotRange, Rounded, TileCount;
      InitialValues(c, d);
      var frag := new Fragment(TC, TC, TC);
      RunTiles(frag, a, b, d);
    }
  }

  // What the tile loops leave in an entry.
  ghost function Result(a: Matrix, b: Matrix, width: nat, base: Matrix, i: nat, j: nat): real
    requires Shapes(a, b, width, base) && i < |a| && j < width
  {
    if |b| == 0 then 0.0 else Entry(a, b, width, base, i, j, |b|)
  }

  lemma HoldsNone(a: Matrix, b: Matrix, width: nat, base: Matrix, r0: nat, c0: nat, d: Matrix, tile: Matrix)
    requires Shapes(a, b, width, base) && |d| == |a| && Rectangular(d, width) && |tile| == TC && Rectangular(tile, TC)
    requires IsTile(tile, d, width, r0, c0, TC)
    requires forall i, j :: InBlock(i, j, r0, c0, TC) && i < |a| && j < width ==> d[i][j] == base[i][j]
    ensures HoldsValues(tile, a, b, width, base, r0, c0, 0)
  {
    hide Entry, IsTile;
    TileEntry(tile, d, width, r0, c0, TC);
    forall i, j | InBlock(i, j, r0, c0, TC) && i < |a| && j < width
      ensures tile[i - r0][j - c0] == Entry(a, b, width, base, i, j, 0)
    {
      EmptyEntry(a, b, width, base, i, j);
    }
  }

  // The entries of the block at (r0, c0) held by a tile, as far as the first k products.
  ghost predicate HoldsValues(tile: Matrix, a: Matrix, b: Matrix, width: nat, base: Matrix, r0: nat, c0: nat, k: nat)
    requires Shapes(a, b, width, base) && |tile| == TC && Rectangular(tile, TC)
  {
    forall i, j :: InBlock(i, j, r0, c0, TC) && i < |a| && j < width ==>
      tile[i - r0][j - c0] == Entry(a, b, width, base, i, j, Min(k, |b|))
  }

  ghost predicate Holds(tile: array2<real>, a: Matrix, b: Matrix, width: nat, base: Matrix, r0: nat, c0: nat, k: nat)
    requires Shapes(a, b, width, base) && tile.Length0 == tile.Length1 == TC
    reads tile
  {
    HoldsValues(Mat(tile), a, b, width, base, r0, c0, k)
  }

  lemma HoldsNext(a: Matrix, b: Matrix, width: nat, base: Matrix, r0: nat, c0: nat, k0: nat,
                  ta: Matrix, tb: Matrix, tc: Matrix, td: Matrix)
    requires Shapes(a, b, width, base)
    requires |tb| == |tc| == |td| == TC && Rectangular(tb, TC) && Rectangular(tc, TC) && Rectangular(td, TC)
    requires IsTile(ta, a, |b|, r0, k0, TC) && IsTile(tb, b, width, k0, c0, TC)
    requires forall i, j :: 0 <= i < TC && 0 <= j < TC ==> td[i][j] == tc[i][j] + Dot(ta[i], Column(tb, TC, j), TC)
    requires HoldsValues(tc, a, b, width, base, r0, c0, k0)
    ensures HoldsValues(td, a, b, width, base, r0, c0, k0 + TC)
  {
    hide Entry, TakesStep, Dot, IsTile;
    StepsTaken(a, b, width, r0, c0, k0, TC, ta, tb, tc, td);
    forall i, j | InBlock(i, j, r0, c0, TC) && i < |a| && j < width
      ensures td[i - r0][j - c0] == Entry(a, b, width, base, i, j, Min(k0 + TC, |b|))
    {
      ExtendEntry(a, b, width, base, i, j, k0, TC, td[i - r0][j - c0]);
    }
  }

  // Clears the tile, then copies the rows x cols block of src at (r0, c0) into it.
  method LoadPadded(src: array2<real>, r0: nat, rows: nat, c0: nat, cols: nat, tile: array2<real>)
    requires tile.Length0 == tile.Length1 == TC && tile != src
    requires r0 <= src.Length0 && rows == Min(TC, src.Length0 - r0) && c0 <= src.Length1 && cols == Min(TC, src.Length1 - c0)
    modifies tile
    ensures IsTile(Mat(tile), Mat(src), src.Length1, r0, c0, TC)
  {
    for i := 0 to TC
      invariant forall p, q :: 0 <= p < i && 0 <= q < TC ==> tile[p, q] == 0.0
    {
      for j := 0 to TC
        invariant forall p, q :: 0 <= p < i && 0 <= q < TC ==> tile[p, q] == 0.0
        invariant forall q :: 0 <= q < j ==> tile[i, q] == 0.0
      {
        tile[i, j] := 0.0;
      }
    }
    for i := 0 to rows
      invariant forall p, q :: 0 <= p < TC && 0 <= q < TC ==> tile[p, q] == if p < i && q < cols then src[r0 + p, c0 + q] else 0.0
    {
      for j := 0 to cols
        invariant forall p, q :: 0 <= p < TC && 0 <= q < TC ==>
          tile[p, q] == if (p < i && q < cols) || (p == i && q < j) then src[r0 + p, c0 + q] else 0.0
      {
        tile[i, j] := src[r0 + i, c0 + j];
      }
    }
  }

  method CopyTile(src: array2<real>, dst: array2<real>)
    requires src.Length0 == src.Length1 == dst.Length0 == dst.Length1 == TC && src != dst
    modifies dst
    ensures Mat(dst) == Mat(src)
  {
    for i := 0 to TC
      invariant forall p, q :: 0 <= p < i && 0 <= q < TC ==> dst[p, q] == src[p, q]
    {
      for j := 0 to TC
        invariant forall p, q :: 0 <= p < i && 0 <= q < TC ==> dst[p, q] == src[p, q]
        invariant forall q :: 0 <= q < j ==> dst[i, q] == src[i, q]
      {
        dst[i, j] := src[i, j];
      }
    }
    MatrixEqual(Mat(dst), Mat(src), TC);
  }

  method StoreBlock(tile: array2<real>, r0: nat, rows: nat, c0: nat, cols: nat, d: array2<real>)
    requires tile.Length0 == tile.Length1 == TC && tile != d
    requires r0 <= d.Length0 && rows == Min(TC, d.Length0 - r0) && c0 <= d.Length1 && cols == Min(TC, d.Length1 - c0)
    modifies d
    ensures forall i, j :: 0 <= i < d.Length0 && 0 <= j < d.Length1 ==>
      d[i, j] == if InBlock(i, j, r0, c0, TC) then tile[i - r0, j - c0] else old(d[i, j])
  {
    for i := 0 to rows
      invariant forall p, q :: 0 <= p < d.Length0 && 0 <= q < d.Length1 ==>
        d[p, q] == if InBlock(p, q, r0, c0, TC) && p < r0 + i then tile[p - r0, q - c0] else old(d[p, q])
    {
      for j := 0 to cols
        invariant forall p, q :: 0 <= p < d.Length0 && 0 <= q < d.Length1 ==>
          d[p, q] == if InBlock(p, q, r0, c0, TC) && (p < r0 + i || (p == r0 + i && q < c0 + j))
                     then tile[p - r0, q - c0] else old(d[p, q])
      {
        d[r0 + i, c0 + j] := tile[i, j];
      }
    }
  }
}
