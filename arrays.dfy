/** The array utilities of `Utils.Array` (TerrainGen/Utilities/Array.cs):
    flattening a 2-D array into a 1-D one and back, the clipped box filter
    `Smooth`, and the argument check and row chunking of
    `BicubicInterpolation`. Element values are reals. */
module Arrays {
  import opened Numerics
  import opened Failures
  import opened GridSums

  // ---------------------------------------------------------------------
  // Row-major layout

  /** The row-major position x * w + y of cell (x, y) in rows of w entries. */
  function Offset(x: nat, y: nat, w: nat): nat
  {
    Times(x, w) + y
  }

  lemma OffsetIsRowMajor(x: nat, y: nat, w: nat)
    ensures Offset(x, y, w) == x * w + y
  {
    TimesIsProduct(x, w);
  }

  /** The rows of a 2-D array: Rows(a)[x][y] is a[x, y]. */
  ghost function Rows<T>(a: array2<T>): (m: seq<seq<T>>)
    reads a
    ensures Rectangular(m, a.Length0, a.Length1)
    ensures forall x, y :: 0 <= x < a.Length0 && 0 <= y < a.Length1 ==> m[x][y] == a[x, y]
  {
    seq(a.Length0, x requires 0 <= x < a.Length0 reads a =>
      seq(a.Length1, y requires 0 <= y < a.Length1 reads a => a[x, y]))
  }

  /** The rows of m laid end to end: every row fits in the result, and the
      result is empty exactly when every row is. */
  function Flatten<T>(m: seq<seq<T>>): (r: seq<T>)
    ensures forall k :: 0 <= k < |m| ==> |m[k]| <= |r|
    ensures |r| == 0 <==> forall k :: 0 <= k < |m| ==> m[k] == []
    decreases |m|
  {
    if |m| == 0 then []
    else
      Flatten(m[..|m| - 1]) + m[|m| - 1]
  }

  /** Flattening h rows of w entries gives h * w entries, with entry (x, y)
      at position x * w + y. */
  lemma {:induction false} FlattenIndex<T>(m: seq<seq<T>>, h: nat, w: nat)
    requires Rectangular(m, h, w)
    ensures |Flatten(m)| == Times(h, w)
    ensures forall x, y :: 0 <= x < h && 0 <= y < w ==>
      Offset(x, y, w) < Times(h, w) && Flatten(m)[Offset(x, y, w)] == m[x][y]
    decreases h
  {
    if h > 0 {
      var front := m[..h - 1];
      FlattenIndex(front, h - 1, w);
      assert Flatten(m) == Flatten(front) + m[h - 1];
      forall x, y | 0 <= x < h && 0 <= y < w
        ensures Offset(x, y, w) < Times(h, w) && Flatten(m)[Offset(x, y, w)] == m[x][y]
      {
        TimesBound(x, y, h, w);
        if x < h - 1 {
          TimesBound(x, y, h - 1, w);
          assert Flatten(m)[Offset(x, y, w)] == Flatten(front)[Offset(x, y, w)];
        }
      }
    }
  }

  /** Cuts v into h rows of w entries; row i is v[i * w .. i * w + w]. */
  function Reshape<T>(v: seq<T>, h: nat, w: nat): (m: seq<seq<T>>)
    requires Times(h, w) <= |v|
    ensures Rectangular(m, h, w)
    ensures forall i, j :: 0 <= i < h && 0 <= j < w ==>
      Offset(i, j, w) < |v| && m[i][j] == v[Offset(i, j, w)]
  {
    var m := seq(h, i requires 0 <= i < h => RowOf(v, h, w, i));
    assert forall i, j :: 0 <= i < h && 0 <= j < w ==>
        Offset(i, j, w) < |v| && m[i][j] == v[Offset(i, j, w)] by {
      forall i, j | 0 <= i < h && 0 <= j < w
        ensures Offset(i, j, w) < |v| && m[i][j] == v[Offset(i, j, w)]
      {
        TimesBound(i, j, h, w);
      }
    }
    m
  }

  /** Row i of Reshape(v, h, w). */
  function RowOf<T>(v: seq<T>, h: nat, w: nat, i: nat): (row: seq<T>)
    requires Times(h, w) <= |v| && i < h
    ensures |row| == w
  {
    TimesStep(i, h, w);
    v[Times(i, w) .. Times(i, w) + w]
  }

  /** Reshaping a flattened grid gives the grid back. */
  lemma ReshapeFlatten<T>(m: seq<seq<T>>, h: nat, w: nat)
    requires Rectangular(m, h, w)
    ensures |Flatten(m)| == Times(h, w) == h * w
    ensures Reshape(Flatten(m), h, w) == m
  {
    FlattenIndex(m, h, w);
    TimesIsProduct(h, w);
    var r := Reshape(Flatten(m), h, w);
    forall i | 0 <= i < h
      ensures r[i] == m[i]
    {
      forall j | 0 <= j < w
        ensures r[i][j] == m[i][j]
      {
      }
    }
  }

  /** Flattening a reshaped sequence of exactly h * w entries gives it back. */
  lemma FlattenReshape<T>(v: seq<T>, h: nat, w: nat)
    requires |v| == h * w
    ensures Times(h, w) <= |v|
    ensures Flatten(Reshape(v, h, w)) == v
  {
    TimesIsProduct(h, w);
    var m := Reshape(v, h, w);
    FlattenIndex(m, h, w);
    var flat := Flatten(m);
    assert |flat| == |v|;
    forall k | 0 <= k < |v|
      ensures flat[k] == v[k]
    {
      var x, y := TimesCell(k, h, w);
      assert flat[Offset(x, y, w)] == m[x][y] == v[Offset(x, y, w)];
    }
    assert flat == v;
  }

  /** `Make1DArray`: copies a 2-D array into a new 1-D array, row by row. */
  method Make1DArray<T(0)>(input: array2<T>) returns (output: array<T>)
    ensures fresh(output)
    ensures output.Length == input.Length0 * input.Length1
    ensures forall x, y :: 0 <= x < input.Length0 && 0 <= y < input.Length1 ==>
      Offset(x, y, input.Length1) < output.Length && output[Offset(x, y, input.Length1)] == input[x, y]
    ensures output[..] == Flatten(Rows(input))
  {
    var rows, cols := input.Length0, input.Length1;
    output := new T[rows * cols];
    TimesIsProduct(rows, cols);
    var x := 0;
    while x < rows
      invariant 0 <= x <= rows
      invariant forall x', y' :: 0 <= x' < x && 0 <= y' < cols ==>
        Offset(x', y', cols) < output.Length && output[Offset(x', y', cols)] == input[x', y']
    {
      var y := 0;
      while y < cols
        invariant 0 <= y <= cols
        invariant forall x', y' :: 0 <= x' < x && 0 <= y' < cols ==>
          Offset(x', y', cols) < output.Length && output[Offset(x', y', cols)] == input[x', y']
        invariant forall y' :: 0 <= y' < y ==>
          Offset(x, y', cols) < output.Length && output[Offset(x, y', cols)] == input[x, y']
      {
        TimesBound(x, y, rows, cols);
        TimesIsProduct(x, cols);
        ghost var before := output[..];
        output[x * cols + y] := input[x, y];
        forall x', y' | 0 <= x' < rows && 0 <= y' < cols && (x' < x || (x' == x && y' < y))
          ensures Offset(x', y', cols) < output.Length && output[Offset(x', y', cols)] == before[Offset(x', y', cols)]
        {
          TimesBound(x', y', rows, cols);
          if Offset(x', y', cols) == Offset(x, y, cols) {
            TimesInjective(x', y', x, y, cols);
          }
        }
        y := y + 1;
      }
      x := x + 1;
    }
    ghost var flat := Flatten(Rows(input));
    FlattenIndex(Rows(input), rows, cols);
    forall k | 0 <= k < output.Length
      ensures output[k] == flat[k]
    {
      var x', y' := TimesCell(k, rows, cols);
      assert output[Offset(x', y', cols)] == input[x', y'] == flat[Offset(x', y', cols)];
    }
  }

  /** `Make2DArray`: fills a new height-by-width array from the first
      height * width entries of a 1-D array, row by row. When the input is
      shorter, the first read past its end throws. */
  method Make2DArray<T(0)>(input: array<T>, height: nat, width: nat) returns (r: Result<array2<T>>)
    ensures r.Err? <==> height * width > input.Length
    ensures r.Err? ==> r.error == IndexOutOfRangeException
    ensures r.Ok? ==> fresh(r.value) && r.value.Length0 == height && r.value.Length1 == width
    ensures r.Ok? ==> forall i, j :: 0 <= i < height && 0 <= j < width ==>
      Offset(i, j, width) < input.Length && r.value[i, j] == input[Offset(i, j, width)]
    ensures r.Ok? ==> Times(height, width) <= input.Length && Rows(r.value) == Reshape(input[..], height, width)
  {
    TimesIsProduct(height, width);
    var output := new T[height, width];
    var i := 0;
    while i < height
      invariant 0 <= i <= height
      invariant Times(i, width) <= input.Length
      invariant forall i', j' :: 0 <= i' < i && 0 <= j' < width ==>
        Offset(i', j', width) < input.Length && output[i', j'] == input[Offset(i', j', width)]
    {
      var j := 0;
      while j < width
        invariant 0 <= j <= width
        invariant Offset(i, j, width) <= input.Length
        invariant forall i', j' :: 0 <= i' < i && 0 <= j' < width ==>
          Offset(i', j', width) < input.Length && output[i', j'] == input[Offset(i', j', width)]
        invariant forall j' :: 0 <= j' < j ==>
          Offset(i, j', width) < input.Length && output[i, j'] == input[Offset(i, j', width)]
      {
        TimesBound(i, j, height, width);
        TimesIsProduct(i, width);
        if i * width + j >= input.Length {
          return Err(IndexOutOfRangeException);
        }
        output[i, j] := input[i * width + j];
        j := j + 1;
      }
      i := i + 1;
    }
    ghost var m, rs := Rows(output), Reshape(input[..], height, width);
    forall i' | 0 <= i' < height
      ensures m[i'] == rs[i']
    {
      forall j' | 0 <= j' < width
        ensures m[i'][j'] == rs[i'][j']
      {
      }
    }
    return Ok(output);
  }

  // ---------------------------------------------------------------------
  // Smooth

  /** The bounds of Smooth's loop around index x: it runs from x - f to
      x + f + 1, both computed in 32-bit `int`, so either may wrap. */
  function LoopStart(x: nat, f: Int32): Int32
    requires x < 0x8000_0000
  {
    WrapOnce32(x - f)
  }

  function LoopStop(x: nat, f: Int32): Int32
    requires x < 0x8000_0000
  {
    WrapOnce32(x + f + 1)
  }

  /** The bounds are the unchecked casts of x - f and x + f + 1. */
  lemma LoopBoundsAreCasts(x: nat, f: Int32)
    requires x < 0x8000_0000
    ensures LoopStart(x, f) == ToInt32(x - f) && LoopStop(x, f) == ToInt32(x + f + 1)
  {
    WrapOnceIsCast(x - f);
    WrapOnceIsCast(x + f + 1);
  }

  /** i clipped into [lo, hi]. */
  function Clip(i: int, lo: nat, hi: nat): (r: nat)
    requires lo <= hi
    ensures lo <= r <= hi
    ensures lo <= i <= hi ==> r == i
  {
    if i < lo then lo else if i > hi then hi else i
  }

  /** The in-bounds indices a loop from start up to stop visits in
      0 .. n - 1 are SpanLo .. SpanHi - 1. */
  function SpanLo(start: int, n: nat): nat
  {
    Clip(start, 0, n)
  }

  function SpanHi(start: int, stop: int, n: nat): (hi: nat)
    ensures SpanLo(start, n) <= hi <= n
  {
    if Clip(stop, 0, n) < Clip(start, 0, n) then Clip(start, 0, n) else Clip(stop, 0, n)
  }

  /** The rows (or columns) of 0 .. n - 1 that Smooth's loop around x
      visits: WindowLo .. WindowHi - 1. */
  function WindowLo(x: nat, f: Int32, n: nat): nat
    requires x < 0x8000_0000
  {
    SpanLo(LoopStart(x, f), n)
  }

  function WindowHi(x: nat, f: Int32, n: nat): (hi: nat)
    requires x < 0x8000_0000
    ensures WindowLo(x, f, n) <= hi <= n
  {
    SpanHi(LoopStart(x, f), LoopStop(x, f), n)
  }

  /** Which indices of 0 .. n - 1 the loop around x visits. For a filter
      size f >= 0 whose bound x + f + 1 fits in an `int` it is the window
      [x - f, x + f] clipped to the grid, which holds x itself. When that
      bound wraps to a negative number the loop does not run at all. For
      f < 0 the loop visits nothing unless x - f wraps, which needs
      x >= 2^30. */
  lemma WindowSpan(x: nat, f: Int32, n: nat)
    requires x < n < 0x8000_0000
    ensures 0 <= f && x + f + 1 < 0x8000_0000 ==>
      && WindowLo(x, f, n) == (if x < f then 0 else x - f)
      && WindowHi(x, f, n) == (if x + f + 1 > n then n else x + f + 1)
      && WindowLo(x, f, n) <= x < WindowHi(x, f, n)
    ensures 0 <= f && x + f + 1 >= 0x8000_0000 ==> WindowLo(x, f, n) == WindowHi(x, f, n)
    ensures f < 0 && (x - f < 0x8000_0000 || x + f < 0) ==> WindowLo(x, f, n) == WindowHi(x, f, n)
    ensures f < 0 && x < 0x4000_0000 ==> WindowLo(x, f, n) == WindowHi(x, f, n)
  {
  }

  /** The number of grid cells the two loops around (x, y) visit in an
      h-by-w grid. */
  function WindowCount(h: nat, w: nat, x: nat, y: nat, f: Int32): nat
    requires x < 0x8000_0000 && y < 0x8000_0000
  {
    Times(WindowHi(x, f, h) - WindowLo(x, f, h), WindowHi(y, f, w) - WindowLo(y, f, w))
  }

  /** A product of counts is zero exactly when one of them is. */
  lemma TimesZero(a: nat, b: nat)
    ensures Times(a, b) == 0 <==> a == 0 || b == 0
  {
    TimesIsProduct(a, b);
    if a >= 1 && b >= 1 {
      assert Times(a, b) == Times(a - 1, b) + b;
    }
  }

  /** The loops around (x, y) visit at least one cell when neither bound
      wraps, and none when one wraps or when f < 0 on a grid of fewer than
      2^30 rows or columns. */
  lemma WindowCountCases(h: nat, w: nat, x: nat, y: nat, f: Int32)
    requires x < h < 0x8000_0000 && y < w < 0x8000_0000
    ensures 0 <= f && x + f + 1 < 0x8000_0000 && y + f + 1 < 0x8000_0000 ==> WindowCount(h, w, x, y, f) >= 1
    ensures 0 <= f && (x + f + 1 >= 0x8000_0000 || y + f + 1 >= 0x8000_0000) ==> WindowCount(h, w, x, y, f) == 0
    ensures f < 0 && (x < 0x4000_0000 || y < 0x4000_0000) ==> WindowCount(h, w, x, y, f) == 0
  {
    WindowSpan(x, f, h);
    WindowSpan(y, f, w);
    TimesZero(WindowHi(x, f, h) - WindowLo(x, f, h), WindowHi(y, f, w) - WindowLo(y, f, w));
  }

  /** The visited block lies inside the grid. */
  lemma WindowInGrid(m: seq<seq<real>>, h: nat, w: nat, x: nat, y: nat, f: Int32)
    requires Rectangular(m, h, w) && x < 0x8000_0000 && y < 0x8000_0000
    ensures Spans(m, WindowLo(x, f, h), WindowHi(x, f, h), WindowHi(y, f, w))
  {
  }

  /** The sum of the cells the loops around (x, y) visit, row by row. */
  function WindowSum(m: seq<seq<real>>, h: nat, w: nat, x: nat, y: nat, f: Int32): real
    requires Rectangular(m, h, w) && x < 0x8000_0000 && y < 0x8000_0000
  {
    WindowInGrid(m, h, w, x, y, f);
    BlockSum(m, WindowLo(x, f, h), WindowHi(x, f, h), WindowLo(y, f, w), WindowHi(y, f, w))
  }

  /** The value Smooth stores at (x, y) of an h-by-w grid: the sum of the
      cells its loops visit divided by their number, which is NaN (0 / 0)
      when they visit none. */
  function SmoothCell(m: seq<seq<real>>, h: nat, w: nat, x: nat, y: nat, f: Int32): (r: Double)
    requires Rectangular(m, h, w) && x < h < 0x8000_0000 && y < w < 0x8000_0000
    ensures r.NaN? <==> WindowCount(h, w, x, y, f) == 0
    ensures r.Num? ==> r.value * (WindowCount(h, w, x, y, f) as real) == WindowSum(m, h, w, x, y, f)
  {
    var count := WindowCount(h, w, x, y, f);
    if count == 0 then NaN else DivideByCount(WindowSum(m, h, w, x, y, f), count)
  }

  /** When Smooth leaves a cell NaN: never while neither loop bound wraps,
      always once one does, and always for f < 0 on a grid of fewer than
      2^30 rows or columns. */
  lemma SmoothCellNaN(m: seq<seq<real>>, h: nat, w: nat, x: nat, y: nat, f: Int32)
    requires Rectangular(m, h, w) && x < h < 0x8000_0000 && y < w < 0x8000_0000
    ensures 0 <= f && x + f + 1 < 0x8000_0000 && y + f + 1 < 0x8000_0000 ==> SmoothCell(m, h, w, x, y, f).Num?
    ensures 0 <= f && (x + f + 1 >= 0x8000_0000 || y + f + 1 >= 0x8000_0000) ==> SmoothCell(m, h, w, x, y, f).NaN?
    ensures f < 0 && (x < 0x4000_0000 || y < 0x4000_0000) ==> SmoothCell(m, h, w, x, y, f).NaN?
  {
    WindowCountCases(h, w, x, y, f);
  }

  /** With filter size 0 the window is the cell itself. */
  lemma SmoothZeroIsIdentity(m: seq<seq<real>>, h: nat, w: nat, x: nat, y: nat)
    requires Rectangular(m, h, w) && x < h < 0x8000_0000 && y < w < 0x8000_0000
    ensures SmoothCell(m, h, w, x, y, 0) == Num(m[x][y])
  {
    WindowSpan(x, 0, h);
    WindowSpan(y, 0, w);
    assert WindowCount(h, w, x, y, 0) == Times(1, 1) == 1;
    SingleCellSum(m, x, y);
  }

  /** A mean of values in [lo, hi] lies in [lo, hi]: a cell Smooth does not
      leave NaN stays within the range of the input, whatever the filter
      size. */
  lemma SmoothWithinRange(m: seq<seq<real>>, h: nat, w: nat, x: nat, y: nat, f: Int32, lo: real, hi: real)
    requires Rectangular(m, h, w) && x < h < 0x8000_0000 && y < w < 0x8000_0000
    requires forall i, j :: 0 <= i < h && 0 <= j < w ==> lo <= m[i][j] <= hi
    ensures SmoothCell(m, h, w, x, y, f).Num? ==> lo <= SmoothCell(m, h, w, x, y, f).value <= hi
  {
    var i0, i1, j0, j1 := WindowLo(x, f, h), WindowHi(x, f, h), WindowLo(y, f, w), WindowHi(y, f, w);
    TimesZero(i1 - i0, j1 - j0);
    if i0 < i1 && j0 < j1 {
      assert BlockWithin(m, i0, i1, j0, j1, lo, hi);
      BlockMeanBounds(m, i0, i1, j0, j1, lo, hi);
    }
  }

  /** A sum and a count that match the window give SmoothCell as their
      `double` quotient. */
  lemma SmoothCellOfSums(m: seq<seq<real>>, h: nat, w: nat, x: nat, y: nat, f: Int32, sum: real, count: nat)
    requires Rectangular(m, h, w) && x < h < 0x8000_0000 && y < w < 0x8000_0000
    requires sum == WindowSum(m, h, w, x, y, f) && count == WindowCount(h, w, x, y, f)
    requires count == 0 ==> sum == 0.0
    ensures SmoothCell(m, h, w, x, y, f) == DivideByCount(sum, count)
  {
  }

  /** Stepping i by one moves its clipped value by one inside [lo, hi) and
      leaves it in place outside. */
  lemma ClipStep(i: int, lo: nat, hi: nat)
    requires lo <= hi
    ensures lo <= i < hi ==> Clip(i, lo, hi) == i && Clip(i + 1, lo, hi) == i + 1
    ensures !(lo <= i < hi) ==> Clip(i + 1, lo, hi) == Clip(i, lo, hi)
  {
  }

  /** How a loop from start up to stop meets the clipped span: it enters at
      SpanLo, visits an in-bounds index exactly when that index lies in the
      span, and leaves at SpanHi. */
  lemma SpanEntry(start: int, stop: int, n: nat)
    ensures Clip(start, SpanLo(start, n), SpanHi(start, stop, n)) == SpanLo(start, n)
  {
  }

  lemma SpanVisit(start: int, stop: int, n: nat, j: int)
    requires start <= j < stop
    ensures (0 <= j < n) <==> (SpanLo(start, n) <= j < SpanHi(start, stop, n))
  {
  }

  lemma SpanExit(start: int, stop: int, n: nat, j: int)
    requires start <= j && (j <= stop || j == start) && !(j < stop)
    ensures Clip(j, SpanLo(start, n), SpanHi(start, stop, n)) == SpanHi(start, stop, n)
  {
  }

  /** The innermost loop of Smooth, over the columns of row i from jStart up
      to jStop: adds up the in-bounds cells it visits and counts them. */
  method RowWindow(a: array2<real>, i: nat, jStart: int, jStop: int) returns (sum: real, count: nat)
    requires i < a.Length0
    ensures sum == RowSum(Rows(a)[i], SpanLo(jStart, a.Length1), SpanHi(jStart, jStop, a.Length1))
    ensures count == SpanHi(jStart, jStop, a.Length1) - SpanLo(jStart, a.Length1)
  {
    ghost var row := Rows(a)[i];
    ghost var jLo, jHi := SpanLo(jStart, a.Length1), SpanHi(jStart, jStop, a.Length1);
    sum, count := 0.0, 0;
    var j := jStart;
    ghost var done := jLo;
    SpanEntry(jStart, jStop, a.Length1);
    while j < jStop
      invariant jStart <= j && (j <= jStop || j == jStart)
      invariant jLo <= done <= jHi && done == Clip(j, jLo, jHi)
      invariant sum == RowSum(row, jLo, done) && count == done - jLo
    {
      ClipStep(j, jLo, jHi);
      SpanVisit(jStart, jStop, a.Length1, j);
      if 0 <= j < a.Length1 {
        sum := sum + a[i, j];
        count := count + 1;
        done := done + 1;
      }
      j := j + 1;
    }
    SpanExit(jStart, jStop, a.Length1, j);
  }

  /** The middle loop of Smooth, over the rows from iStart up to iStop, with
      the innermost loop over the columns from jStart up to jStop: adds up
      the in-bounds cells they visit and counts them. */
  method BlockWindow(a: array2<real>, iStart: int, iStop: int, jStart: int, jStop: int) returns (sum: real, count: nat)
    ensures Spans(Rows(a), SpanLo(iStart, a.Length0), SpanHi(iStart, iStop, a.Length0), SpanHi(jStart, jStop, a.Length1))
    ensures sum == BlockSum(Rows(a), SpanLo(iStart, a.Length0), SpanHi(iStart, iStop, a.Length0),
                                     SpanLo(jStart, a.Length1), SpanHi(jStart, jStop, a.Length1))
    ensures count == Times(SpanHi(iStart, iStop, a.Length0) - SpanLo(iStart, a.Length0),
                           SpanHi(jStart, jStop, a.Length1) - SpanLo(jStart, a.Length1))
  {
    ghost var m := Rows(a);
    ghost var iLo, iHi := SpanLo(iStart, a.Length0), SpanHi(iStart, iStop, a.Length0);
    ghost var jLo, jHi := SpanLo(jStart, a.Length1), SpanHi(jStart, jStop, a.Length1);
    sum, count := 0.0, 0;
    var i := iStart;
    ghost var done := iLo;
    SpanEntry(iStart, iStop, a.Length0);
    while i < iStop
      invariant iStart <= i && (i <= iStop || i == iStart)
      invariant iLo <= done <= iHi && done == Clip(i, iLo, iHi)
      invariant sum == BlockSum(m, iLo, done, jLo, jHi)
      invariant count == Times(done - iLo, jHi - jLo)
    {
      ClipStep(i, iLo, iHi);
      SpanVisit(iStart, iStop, a.Length0, i);
      if 0 <= i < a.Length0 {
        var rowSum, rowCount := RowWindow(a, i, jStart, jStop);
        sum := sum + rowSum;
        count := count + rowCount;
        done := done + 1;
      }
      i := i + 1;
    }
    SpanExit(iStart, iStop, a.Length0, i);
  }

  /** The two inner loops of Smooth around (x, y): add up the in-bounds
      cells they visit, count them, and divide the sum by the count in
      `double`. */
  method WindowMean(a: array2<real>, x: nat, y: nat, filterSize: Int32) returns (mean: Double)
    requires x < a.Length0 < 0x8000_0000 && y < a.Length1 < 0x8000_0000
    ensures mean == SmoothCell(Rows(a), a.Length0, a.Length1, x, y, filterSize)
  {
    var f := filterSize;
    var aaValue, counter := BlockWindow(a, LoopStart(x, f), LoopStop(x, f), LoopStart(y, f), LoopStop(y, f));
    ghost var m := Rows(a);
    ghost var iLo, iHi := WindowLo(x, f, a.Length0), WindowHi(x, f, a.Length0);
    ghost var jLo, jHi := WindowLo(y, f, a.Length1), WindowHi(y, f, a.Length1);
    TimesZero(iHi - iLo, jHi - jLo);
    if jLo == jHi {
      BlockSumNoColumns(m, iLo, iHi, jLo);
    }
    SmoothCellOfSums(m, a.Length0, a.Length1, x, y, f, aaValue, counter);
    mean := DivideByCount(aaValue, counter);
  }

  /** `Smooth`: a new array of the same shape whose every cell is the mean of
      the input cells the loops around it visit, or NaN when they visit
      none. The input is only read. With filter size 0 every cell is copied
      unchanged. */
  method Smooth(arrayToSmooth: array2<real>, filterSize: Int32) returns (arrayToReturn: array2<Double>)
    requires arrayToSmooth.Length0 < 0x8000_0000 && arrayToSmooth.Length1 < 0x8000_0000
    ensures fresh(arrayToReturn)
    ensures arrayToReturn.Length0 == arrayToSmooth.Length0 && arrayToReturn.Length1 == arrayToSmooth.Length1
    ensures forall x, y :: 0 <= x < arrayToSmooth.Length0 && 0 <= y < arrayToSmooth.Length1 ==>
      arrayToReturn[x, y] == SmoothCell(Rows(arrayToSmooth), arrayToSmooth.Length0, arrayToSmooth.Length1, x, y, filterSize)
    ensures filterSize == 0 ==> forall x, y :: 0 <= x < arrayToSmooth.Length0 && 0 <= y < arrayToSmooth.Length1 ==>
      arrayToReturn[x, y] == Num(arrayToSmooth[x, y])
  {
    var h, w := arrayToSmooth.Length0, arrayToSmooth.Length1;
    arrayToReturn := new Double[h, w];
    var x := 0;
    while x < h
      invariant 0 <= x <= h
      invariant forall x', y' :: 0 <= x' < x && 0 <= y' < w ==>
        arrayToReturn[x', y'] == SmoothCell(Rows(arrayToSmooth), h, w, x', y', filterSize)
    {
      var y := 0;
      while y < w
        invariant 0 <= y <= w
        invariant forall x', y' :: 0 <= x' < x && 0 <= y' < w ==>
          arrayToReturn[x', y'] == SmoothCell(Rows(arrayToSmooth), h, w, x', y', filterSize)
        invariant forall y' :: 0 <= y' < y ==>
          arrayToReturn[x, y'] == SmoothCell(Rows(arrayToSmooth), h, w, x, y', filterSize)
      {
        var mean := WindowMean(arrayToSmooth, x, y, filterSize);
        arrayToReturn[x, y] := mean;
        y := y + 1;
      }
      x := x + 1;
    }
    if filterSize == 0 {
      forall x', y' | 0 <= x' < h && 0 <= y' < w
        ensures arrayToReturn[x', y'] == Num(arrayToSmooth[x', y'])
      {
        SmoothZeroIsIdentity(Rows(arrayToSmooth), h, w, x', y');
      }
    }
  }

  // ---------------------------------------------------------------------
  // BicubicInterpolation: argument check and row chunks

  /** How BicubicInterpolation splits the output rows among Parallel.For
      iterations: rowsPerChunk rows to a chunk, chunkCount chunks. */
  datatype ChunkLayout = ChunkLayout(rowsPerChunk: nat, chunkCount: nat)

  /** The argument check and chunk arithmetic of BicubicInterpolation: an
      output size below 1 throws ArgumentException; otherwise 6000 / outWidth
      rows go to a chunk, at least one, and chunkCount rounds the row count up. */
  function BicubicChunks(outWidth: Int32, outHeight: Int32): (r: Result<ChunkLayout>)
    ensures r.Err? <==> outWidth < 1 || outHeight < 1
    ensures r.Err? ==> r.error == ArgumentException
    ensures r.Ok? ==> r.value.rowsPerChunk >= 1 && r.value.chunkCount >= 1
  {
    if outWidth < 1 || outHeight < 1 then Err(ArgumentException)
    else
      var quotient := 6000 / outWidth;
      var rowsPerChunk := if quotient == 0 then 1 else quotient;
      CeilingDivision(outHeight, rowsPerChunk);
      Ok(ChunkLayout(rowsPerChunk, outHeight / rowsPerChunk + (if outHeight % rowsPerChunk != 0 then 1 else 0)))
  }

  /** jStart of chunk c: c * rowsPerChunk. It is c chunk lengths along, and
      the next chunk starts one chunk length later. */
  function ChunkStart(layout: ChunkLayout, c: nat): (r: nat)
    ensures r == Times(c, layout.rowsPerChunk)
    ensures r + layout.rowsPerChunk == (c + 1) * layout.rowsPerChunk
  {
    TimesIsProduct(c, layout.rowsPerChunk);
    c * layout.rowsPerChunk
  }

  /** jStop of chunk c: jStart + rowsPerChunk as an unchecked `int` sum, cut
      at outHeight. While the sum fits an `int` it is the chunk's end, which
      lies past a jStart below outHeight; once it passes int.MaxValue it wraps
      to a negative number and the chunk's loop runs no row. */
  function ChunkStop(layout: ChunkLayout, outHeight: nat, c: nat): (r: int)
    ensures r <= outHeight
    ensures ChunkStart(layout, c) + layout.rowsPerChunk < 0x8000_0000 ==>
      && r <= ChunkStart(layout, c) + layout.rowsPerChunk
      && (r == outHeight || r == ChunkStart(layout, c) + layout.rowsPerChunk)
      && (ChunkStart(layout, c) < outHeight && layout.rowsPerChunk >= 1 ==> ChunkStart(layout, c) < r)
    ensures 0x8000_0000 <= ChunkStart(layout, c) + layout.rowsPerChunk < 0x1_0000_0000 ==>
      r == ChunkStart(layout, c) + layout.rowsPerChunk - 0x1_0000_0000 && r < 0
  {
    var sum := ChunkStart(layout, c) + layout.rowsPerChunk;
    var jStop := ToInt32(sum);
    assert 0x8000_0000 <= sum < 0x1_8000_0000 ==> jStop == sum - 0x1_0000_0000 by {
      if 0x8000_0000 <= sum < 0x1_8000_0000 {
        ToInt32Wraps(sum);
      }
    }
    if jStop > outHeight then outHeight else jStop
  }

  /** chunkCount chunks of rowsPerChunk rows reach outHeight, and one chunk
      fewer does not. */
  predicate CoversRows(layout: ChunkLayout, outHeight: nat)
  {
    && layout.rowsPerChunk >= 1
    && layout.chunkCount >= 1
    && Times(layout.chunkCount - 1, layout.rowsPerChunk) < outHeight <= Times(layout.chunkCount, layout.rowsPerChunk)
  }

  /** A chunk holds at least one row, and at most 6000 cells unless a single
      row is already wider than that; chunkCount is the least number of
      chunks that reaches outHeight. */
  lemma BicubicChunkSizes(outWidth: Int32, outHeight: Int32)
    requires outWidth >= 1 && outHeight >= 1
    ensures var layout := BicubicChunks(outWidth, outHeight).value;
      && 1 <= layout.rowsPerChunk <= 6000
      && (outWidth <= 6000 ==> layout.rowsPerChunk * outWidth <= 6000)
      && (outWidth > 6000 ==> layout.rowsPerChunk == 1)
      && (layout.chunkCount - 1) * layout.rowsPerChunk < outHeight <= layout.chunkCount * layout.rowsPerChunk
      && CoversRows(layout, outHeight)
  {
    var layout := BicubicChunks(outWidth, outHeight).value;
    CeilingDivision(outHeight, layout.rowsPerChunk);
    if outWidth <= 6000 {
      var quotient := 6000 / outWidth;
      assert quotient * outWidth <= 6000;
    }
    TimesIsProduct(layout.chunkCount - 1, layout.rowsPerChunk);
    TimesIsProduct(layout.chunkCount, layout.rowsPerChunk);
  }

  /** n / d rounded up, as BicubicInterpolation computes chunkCount: at
      least 1, and the least count of d-row chunks that reaches n. */
  lemma CeilingDivision(n: nat, d: nat)
    requires n >= 1 && d >= 1
    ensures var c := n / d + (if n % d != 0 then 1 else 0);
      c >= 1 && (c - 1) * d < n <= c * d
  {
    var q, s := n / d, n % d;
    assert n == q * d + s && 0 <= s < d;
    if s != 0 {
      assert (q + 1) * d == q * d + d;
    } else {
      assert q >= 1;
      assert (q - 1) * d == q * d - d;
    }
  }

  /** With chunks that cover the rows, row j lies in chunk j / rpc and in no
      other. */
  lemma RowInOneChunk(layout: ChunkLayout, outHeight: nat, j: nat, c: nat)
    requires CoversRows(layout, outHeight) && j < outHeight
    ensures j / layout.rowsPerChunk < layout.chunkCount
    ensures (c < layout.chunkCount && Times(c, layout.rowsPerChunk) <= j < Times(c, layout.rowsPerChunk) + layout.rowsPerChunk)
      <==> c == j / layout.rowsPerChunk
  {
    var rpc, cc := layout.rowsPerChunk, layout.chunkCount;
    var k := j / rpc;
    TimesIsProduct(k, rpc);
    assert j == Times(k, rpc) + j % rpc;
    if k >= cc {
      if k > cc {
        TimesStep(cc, k, rpc);
      }
      assert false;
    }
    if c < k {
      TimesStep(c, k, rpc);
    } else if k < c {
      TimesStep(k, c, rpc);
    }
  }

  /** How many rows, from row 0 on, the chunks fill: all outHeight rows
      while the last chunk's jStop, chunkCount * rowsPerChunk, fits an `int`,
      and otherwise the rows of every chunk before the last. */
  function FilledRows(layout: ChunkLayout, outHeight: nat): (r: nat)
    ensures CoversRows(layout, outHeight) ==> r <= outHeight
    ensures CoversRows(layout, outHeight) ==>
      (r == outHeight <==> Times(layout.chunkCount, layout.rowsPerChunk) < 0x8000_0000)
  {
    if layout.chunkCount == 0 || Times(layout.chunkCount, layout.rowsPerChunk) < 0x8000_0000 then outHeight
    else Times(layout.chunkCount - 1, layout.rowsPerChunk)
  }

  /** Every chunk but the last ends inside the output, so its jStop never
      wraps; the last one's jStop is chunkCount * rowsPerChunk, which stays
      below 2^32. */
  lemma ChunkSums(outWidth: Int32, outHeight: Int32, c: nat)
    requires outWidth >= 1 && outHeight >= 1
    requires c < BicubicChunks(outWidth, outHeight).value.chunkCount
    ensures var layout := BicubicChunks(outWidth, outHeight).value;
      && ChunkStart(layout, c) < outHeight
      && ChunkStart(layout, c) + layout.rowsPerChunk == Times(c + 1, layout.rowsPerChunk) < 0x1_0000_0000
      && (c + 1 < layout.chunkCount ==> ChunkStart(layout, c) + layout.rowsPerChunk < outHeight)
  {
    BicubicChunkSizes(outWidth, outHeight);
    var layout := BicubicChunks(outWidth, outHeight).value;
    var rpc, cc := layout.rowsPerChunk, layout.chunkCount;
    if c + 1 < cc {
      TimesStep(c, cc - 1, rpc);
      if c + 1 < cc - 1 {
        TimesStep(c + 1, cc - 1, rpc);
      }
    }
  }

  /** Chunk c's loop leaves the rows filled up to the next chunk's jStart, or,
      for the last chunk, up to FilledRows. */
  lemma ChunkEndsAt(outWidth: Int32, outHeight: Int32, c: nat)
    requires outWidth >= 1 && outHeight >= 1
    requires c < BicubicChunks(outWidth, outHeight).value.chunkCount
    ensures var layout := BicubicChunks(outWidth, outHeight).value;
      var start, stop := ChunkStart(layout, c), ChunkStop(layout, outHeight, c);
      (if stop > start then stop else start)
        == if c + 1 < layout.chunkCount then Times(c + 1, layout.rowsPerChunk) else FilledRows(layout, outHeight)
  {
    BicubicChunkSizes(outWidth, outHeight);
    ChunkSums(outWidth, outHeight, c);
  }

  /** Row j of the output lies in the chunk j / rowsPerChunk and in no other,
      and that chunk fills it unless it is the last chunk and its jStop has
      wrapped: a row is filled exactly when it is below FilledRows. */
  lemma BicubicChunksPartitionRows(outWidth: Int32, outHeight: Int32, j: nat, c: nat)
    requires outWidth >= 1 && outHeight >= 1 && j < outHeight
    ensures var layout := BicubicChunks(outWidth, outHeight).value;
      && j / layout.rowsPerChunk < layout.chunkCount
      && ((c < layout.chunkCount && ChunkStart(layout, c) <= j < ChunkStop(layout, outHeight, c))
          <==> c == j / layout.rowsPerChunk && j < FilledRows(layout, outHeight))
  {
    BicubicChunkSizes(outWidth, outHeight);
    var layout := BicubicChunks(outWidth, outHeight).value;
    var rpc, cc := layout.rowsPerChunk, layout.chunkCount;
    TimesIsProduct(c, rpc);
    RowInOneChunk(layout, outHeight, j, c);
    RowInOneChunk(layout, outHeight, j, cc - 1);
    if c < cc {
      ChunkSums(outWidth, outHeight, c);
    }
    ChunkSums(outWidth, outHeight, cc - 1);
  }

  /** The last chunk's loop runs no row exactly when its jStop,
      chunkCount * rowsPerChunk, passes int.MaxValue; it fills every row
      from its jStart up otherwise. */
  lemma BicubicLastChunkSkipped(outWidth: Int32, outHeight: Int32)
    requires outWidth >= 1 && outHeight >= 1
    ensures var layout := BicubicChunks(outWidth, outHeight).value;
      var last := layout.chunkCount - 1;
      && (ChunkStop(layout, outHeight, last) <= ChunkStart(layout, last)
          <==> layout.chunkCount * layout.rowsPerChunk >= 0x8000_0000)
      && (layout.chunkCount * layout.rowsPerChunk < 0x8000_0000 ==> ChunkStop(layout, outHeight, last) == outHeight)
  {
    BicubicChunkSizes(outWidth, outHeight);
    var layout := BicubicChunks(outWidth, outHeight).value;
    ChunkSums(outWidth, outHeight, layout.chunkCount - 1);
    TimesIsProduct(layout.chunkCount, layout.rowsPerChunk);
  }

  /** A 2147483591-row, one-column output: 6000 rows to a chunk and 357914
      chunks. The last chunk starts at row 2147478000 and its jStop,
      2147484000, wraps to -2147483296, so its 5591 rows stay unfilled. */
  lemma BicubicTallOutputLosesRows()
    ensures var layout := BicubicChunks(1, 2147483591).value;
      && layout == ChunkLayout(6000, 357914)
      && ChunkStart(layout, 357913) == 2147478000
      && ChunkStop(layout, 2147483591, 357913) == -2147483296
      && FilledRows(layout, 2147483591) == 2147478000
  {
    TimesIsProduct(357913, 6000);
    TimesIsProduct(357914, 6000);
  }

  /** The rows BicubicInterpolation fills, chunk by chunk: for each chunk the
      loop `for (j = jStart; j < jStop; ++j)`. Run with the chunks in index
      order, every output row comes out once, in order. No output array is
      written; the cubic arithmetic per row is not part of this model. */
  method BicubicRowSchedule(outWidth: Int32, outHeight: Int32) returns (r: Result<seq<nat>>)
    ensures r.Err? <==> outWidth < 1 || outHeight < 1
    ensures r.Err? ==> r.error == ArgumentException
    ensures r.Ok? ==> |r.value| == FilledRows(BicubicChunks(outWidth, outHeight).value, outHeight)
    ensures r.Ok? ==> forall j :: 0 <= j < |r.value| ==> r.value[j] == j
    ensures r.Ok? ==> var layout := BicubicChunks(outWidth, outHeight).value;
      |r.value| == outHeight <==> layout.chunkCount * layout.rowsPerChunk < 0x8000_0000
  {
    var chunks := BicubicChunks(outWidth, outHeight);
    if chunks.Err? {
      return Err(chunks.error);
    }
    var layout := chunks.value;
    BicubicChunkSizes(outWidth, outHeight);
    var rpc, cc := layout.rowsPerChunk, layout.chunkCount;
    TimesIsProduct(cc, rpc);
    var rows: seq<nat> := [];
    var chunkNumber := 0;
    while chunkNumber < cc
      invariant 0 <= chunkNumber <= cc
      invariant chunkNumber < cc ==> |rows| == Times(chunkNumber, rpc)
      invariant chunkNumber == cc ==> |rows| == FilledRows(layout, outHeight)
      invariant forall k :: 0 <= k < |rows| ==> rows[k] == k
    {
      TimesIsProduct(chunkNumber, rpc);
      ChunkEndsAt(outWidth, outHeight, chunkNumber);
      var jStart := chunkNumber * rpc;
      var jStop := ToInt32(jStart + rpc);
      if jStop > outHeight {
        jStop := outHeight;
      }
      assert jStop == ChunkStop(layout, outHeight, chunkNumber);
      var j := jStart;
      while j < jStop
        invariant jStart <= j && (j <= jStop || j == jStart)
        invariant |rows| == j
        invariant forall k :: 0 <= k < |rows| ==> rows[k] == k
      {
        rows := rows + [j];
        j := j + 1;
      }
      chunkNumber := chunkNumber + 1;
    }
    return Ok(rows);
  }
}
