/** Sums over rectangular blocks of a grid of reals, in the order the
    repository's nested loops add them up: row by row, and left to right
    within a row. Utils.Array.Smooth averages such blocks and
    TerrainGrid.Midpoint divides the sum of the whole grid. */
module GridSums {

  /** n * w, as n blocks of w entries laid one after another. Recursion
      keeps the solver's reasoning about block offsets linear. */
  function Times(n: nat, w: nat): nat
  {
    if n == 0 then 0 else Times(n - 1, w) + w
  }

  lemma {:induction false} TimesIsProduct(n: nat, w: nat)
    ensures Times(n, w) == n * w
  {
    if n > 0 {
      TimesIsProduct(n - 1, w);
      assert n * w == (n - 1) * w + w;
    }
  }

  /** Block a ends no later than block b starts, for a < b. */
  lemma {:induction false} TimesStep(a: nat, b: nat, w: nat)
    requires a < b
    ensures Times(a, w) + w <= Times(b, w)
    decreases b - a
  {
    if a + 1 < b {
      TimesStep(a + 1, b, w);
    }
  }

  /** Distinct cells of blocks w wide have distinct offsets. */
  lemma TimesInjective(x: nat, y: nat, x': nat, y': nat, w: nat)
    requires y < w && y' < w && Times(x, w) + y == Times(x', w) + y'
    ensures x == x' && y == y'
  {
    if x < x' {
      TimesStep(x, x', w);
    } else if x' < x {
      TimesStep(x', x, w);
    }
  }

  /** Offset y of block x lies inside h blocks when x < h. */
  lemma TimesBound(x: nat, y: nat, h: nat, w: nat)
    requires x < h && y < w
    ensures Times(x, w) + y < Times(h, w)
    ensures Times(x, w) + w <= Times(h, w)
  {
    TimesStep(x, h, w);
  }

  /** Every offset inside h blocks of w is offset y of some block x. */
  lemma {:induction false} TimesCell(k: nat, h: nat, w: nat) returns (x: nat, y: nat)
    requires k < Times(h, w)
    ensures x < h && y < w && k == Times(x, w) + y
    decreases h
  {
    if k < Times(h - 1, w) {
      x, y := TimesCell(k, h - 1, w);
    } else {
      x, y := h - 1, k - Times(h - 1, w);
    }
  }

  /** m has h rows, each of w entries. */
  predicate Rectangular<T>(m: seq<seq<T>>, h: nat, w: nat)
  {
    |m| == h && forall i :: 0 <= i < h ==> |m[i]| == w
  }

  /** row[j0] + ... + row[j1 - 1], added left to right. */
  function RowSum(row: seq<real>, j0: nat, j1: nat): real
    requires j0 <= j1 <= |row|
    decreases j1 - j0
  {
    if j0 == j1 then 0.0 else RowSum(row, j0, j1 - 1) + row[j1 - 1]
  }

  /** Rows i0 .. i1 - 1 of m are long enough for columns up to j1. */
  predicate Spans(m: seq<seq<real>>, i0: nat, i1: nat, j1: nat)
  {
    i1 <= |m| && forall i :: i0 <= i < i1 ==> j1 <= |m[i]|
  }

  /** The sum of m[i][j] over i0 <= i < i1 and j0 <= j < j1, row by row. */
  function BlockSum(m: seq<seq<real>>, i0: nat, i1: nat, j0: nat, j1: nat): real
    requires i0 <= i1 && j0 <= j1 && Spans(m, i0, i1, j1)
    decreases i1 - i0
  {
    if i0 == i1 then 0.0 else BlockSum(m, i0, i1 - 1, j0, j1) + RowSum(m[i1 - 1], j0, j1)
  }

  /** Every entry of the block lies in [lo, hi]. */
  predicate BlockWithin(m: seq<seq<real>>, i0: nat, i1: nat, j0: nat, j1: nat, lo: real, hi: real)
    requires Spans(m, i0, i1, j1)
  {
    forall i, j :: i0 <= i < i1 && j0 <= j < j1 ==> lo <= m[i][j] <= hi
  }

  /** A sum of n entries in [lo, hi] lies in [n * lo, n * hi]. */
  lemma {:induction false} RowSumBounds(row: seq<real>, j0: nat, j1: nat, lo: real, hi: real)
    requires j0 <= j1 <= |row|
    requires forall j :: j0 <= j < j1 ==> lo <= row[j] <= hi
    ensures (j1 - j0) as real * lo <= RowSum(row, j0, j1) <= (j1 - j0) as real * hi
    decreases j1 - j0
  {
    if j0 < j1 {
      RowSumBounds(row, j0, j1 - 1, lo, hi);
      assert (j1 - j0) as real * lo == (j1 - 1 - j0) as real * lo + lo;
      assert (j1 - j0) as real * hi == (j1 - 1 - j0) as real * hi + hi;
    }
  }

  /** Lower bounds of two sums add up: p * c <= x and q * c <= y give
      (p + q) * c <= x + y. */
  lemma AddLowerBounds(p: real, q: real, c: real, x: real, y: real)
    requires p * c <= x && q * c <= y
    ensures (p + q) * c <= x + y
  {
    assert (p + q) * c == p * c + q * c;
  }

  /** Upper bounds of two sums add up likewise. */
  lemma AddUpperBounds(p: real, q: real, c: real, x: real, y: real)
    requires x <= p * c && y <= q * c
    ensures x + y <= (p + q) * c
  {
    assert (p + q) * c == p * c + q * c;
  }

  /** A block of rows * cols entries, each at least lo, sums to at least
      rows * cols * lo. */
  lemma {:induction false} BlockSumAtLeast(m: seq<seq<real>>, i0: nat, i1: nat, j0: nat, j1: nat, lo: real, hi: real)
    requires i0 <= i1 && j0 <= j1 && Spans(m, i0, i1, j1)
    requires BlockWithin(m, i0, i1, j0, j1, lo, hi)
    ensures Times(i1 - i0, j1 - j0) as real * lo <= BlockSum(m, i0, i1, j0, j1)
    decreases i1 - i0
  {
    if i0 < i1 {
      BlockSumAtLeast(m, i0, i1 - 1, j0, j1, lo, hi);
      RowSumBounds(m[i1 - 1], j0, j1, lo, hi);
      var n := Times(i1 - 1 - i0, j1 - j0);
      assert Times(i1 - i0, j1 - j0) == n + (j1 - j0);
      AddLowerBounds(n as real, (j1 - j0) as real, lo, BlockSum(m, i0, i1 - 1, j0, j1), RowSum(m[i1 - 1], j0, j1));
    }
  }

  /** A block of rows * cols entries, each at most hi, sums to at most
      rows * cols * hi. */
  lemma {:induction false} BlockSumAtMost(m: seq<seq<real>>, i0: nat, i1: nat, j0: nat, j1: nat, lo: real, hi: real)
    requires i0 <= i1 && j0 <= j1 && Spans(m, i0, i1, j1)
    requires BlockWithin(m, i0, i1, j0, j1, lo, hi)
    ensures BlockSum(m, i0, i1, j0, j1) <= Times(i1 - i0, j1 - j0) as real * hi
    decreases i1 - i0
  {
    if i0 < i1 {
      BlockSumAtMost(m, i0, i1 - 1, j0, j1, lo, hi);
      RowSumBounds(m[i1 - 1], j0, j1, lo, hi);
      var n := Times(i1 - 1 - i0, j1 - j0);
      assert Times(i1 - i0, j1 - j0) == n + (j1 - j0);
      AddUpperBounds(n as real, (j1 - j0) as real, hi, BlockSum(m, i0, i1 - 1, j0, j1), RowSum(m[i1 - 1], j0, j1));
    }
  }

  /** A sum of n values in [lo, hi], divided by n, lies in [lo, hi]. */
  lemma MeanWithin(s: real, n: nat, lo: real, hi: real)
    requires n >= 1 && n as real * lo <= s <= n as real * hi
    ensures lo <= s / (n as real) <= hi
  {
    var c := n as real;
    assert s / c * c == s;
  }

  /** The mean of a non-empty block of entries in [lo, hi] lies in [lo, hi]. */
  lemma BlockMeanBounds(m: seq<seq<real>>, i0: nat, i1: nat, j0: nat, j1: nat, lo: real, hi: real)
    requires i0 < i1 && j0 < j1 && Spans(m, i0, i1, j1)
    requires BlockWithin(m, i0, i1, j0, j1, lo, hi)
    ensures Times(i1 - i0, j1 - j0) >= 1
    ensures lo <= BlockSum(m, i0, i1, j0, j1) / (Times(i1 - i0, j1 - j0) as real) <= hi
  {
    BlockSumAtLeast(m, i0, i1, j0, j1, lo, hi);
    BlockSumAtMost(m, i0, i1, j0, j1, lo, hi);
    var n := Times(i1 - i0, j1 - j0);
    assert n == Times(i1 - i0 - 1, j1 - j0) + (j1 - j0);
    MeanWithin(BlockSum(m, i0, i1, j0, j1), n, lo, hi);
  }

  /** A block with no columns sums to 0. */
  lemma {:induction false} BlockSumNoColumns(m: seq<seq<real>>, i0: nat, i1: nat, j: nat)
    requires i0 <= i1 && Spans(m, i0, i1, j)
    ensures BlockSum(m, i0, i1, j, j) == 0.0
    decreases i1 - i0
  {
    if i0 < i1 {
      BlockSumNoColumns(m, i0, i1 - 1, j);
    }
  }

  /** A block of a single entry sums to that entry. */
  lemma SingleCellSum(m: seq<seq<real>>, i: nat, j: nat)
    requires i < |m| && j < |m[i]|
    ensures BlockSum(m, i, i + 1, j, j + 1) == m[i][j]
  {
    assert BlockSum(m, i, i, j, j + 1) == 0.0;
    assert RowSum(m[i], j, j + 1) == RowSum(m[i], j, j) + m[i][j];
  }
}
