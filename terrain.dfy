/** `GridSquare` and `TerrainGrid` (TerrainGen/Generator/TerrainGrid.cs):
    a Width x Height array of squares, each knowing its own coordinates and
    carrying an elevation. */
module Terrain {
  import opened Numerics
  import opened Failures
  import opened GridSums

  /** One square of the grid. The source's auto-properties are plain fields. */
  class GridSquare {
    var X: Int32
    var Y: Int32
    var Elevation: real

    /** `new GridSquare() { X = x, Y = y, Elevation = elevation }`. */
    constructor (x: Int32, y: Int32, elevation: real)
      ensures X == x && Y == y && Elevation == elevation
    {
      X, Y, Elevation := x, y, elevation;
    }
  }

  /** `Random.Next(0, max)` for max >= 0: 0 when max is 0, else a value in
      [0, max). The draws of SamplePoints are given as input and obey this. */
  predicate LegalDraw(v: int, max: int)
  {
    if max <= 0 then v == 0 else 0 <= v < max
  }

  /** `Width * Height` in `uint`: the product wraps modulo 2^32. */
  function WrappedArea(width: UInt32, height: UInt32): UInt32
  {
    (width * height) % 0x1_0000_0000
  }

  /** What Midpoint returns for a grid of elevations m: the row-by-row sum of
      all of them divided by the wrapped area. */
  function MidpointOf(m: seq<seq<real>>, width: UInt32, height: UInt32): (r: real)
    requires Rectangular(m, width, height) && WrappedArea(width, height) != 0
    ensures r * (WrappedArea(width, height) as real) == BlockSum(m, 0, width, 0, height)
  {
    var sum, area := BlockSum(m, 0, width, 0, height), WrappedArea(width, height) as real;
    assert sum / area * area == sum;
    sum / area
  }

  class TerrainGrid {
    var Width: UInt32
    var Height: UInt32
    var Grid: array2<GridSquare?>

    /** The grid is Width x Height and every cell holds a square. */
    ghost predicate Valid()
      reads this, Grid
    {
      && Grid.Length0 == Width
      && Grid.Length1 == Height
      && forall x, y :: 0 <= x < Width && 0 <= y < Height ==> Grid[x, y] != null
    }

    /** The squares the grid currently holds. */
    ghost function Squares(): set<GridSquare?>
      reads this, Grid
    {
      set x, y | 0 <= x < Grid.Length0 && 0 <= y < Grid.Length1 :: Grid[x, y]
    }

    /** The elevations of the grid, row x holding the cells (x, 0 .. Height - 1). */
    ghost function Elevations(): (m: seq<seq<real>>)
      requires Valid()
      reads this, Grid, Squares()
      ensures Rectangular(m, Width, Height)
      ensures forall x, y :: 0 <= x < Width && 0 <= y < Height ==> m[x][y] == Grid[x, y].Elevation
    {
      seq(Width, x requires 0 <= x < Width && Valid() reads this, Grid, Squares() =>
        seq(Height, y requires 0 <= y < Height && 0 <= x < Width && Valid() reads this, Grid, Squares() =>
          assert Grid[x, y] in Squares();
          Grid[x, y].Elevation))
    }

    /** The constructor: stores the sizes and fills cell (x, y) with a new
        square at (x, y) of elevation 0. The loop counters are `int`s, so the
        sizes stay below 2^31 (larger arrays cannot be allocated anyway). */
    constructor (width: UInt32, height: UInt32)
      requires width < 0x8000_0000 && height < 0x8000_0000
      ensures Valid()
      ensures Width == width && Height == height && fresh(Grid)
      ensures forall x, y :: 0 <= x < width && 0 <= y < height ==>
                fresh(Grid[x, y]) && Grid[x, y].X == x && Grid[x, y].Y == y && Grid[x, y].Elevation == 0.0
    {
      Width, Height := width, height;
      Grid := new GridSquare?[width, height];
      new;
      var x := 0;
      while x < width
        invariant 0 <= x <= width
        invariant Width == width && Height == height && fresh(Grid)
        invariant Grid.Length0 == width && Grid.Length1 == height
        invariant forall x', y' :: 0 <= x' < x && 0 <= y' < height ==>
                    Grid[x', y'] != null && fresh(Grid[x', y'])
                    && Grid[x', y'].X == x' && Grid[x', y'].Y == y' && Grid[x', y'].Elevation == 0.0
      {
        var y := 0;
        while y < height
          invariant 0 <= y <= height
          invariant Width == width && Height == height && fresh(Grid)
          invariant Grid.Length0 == width && Grid.Length1 == height
          invariant forall x', y' :: (0 <= x' < x && 0 <= y' < height) || (x' == x && 0 <= y' < y) ==>
                      Grid[x', y'] != null && fresh(Grid[x', y'])
                      && Grid[x', y'].X == x' && Grid[x', y'].Y == y' && Grid[x', y'].Elevation == 0.0
        {
          var square := new GridSquare(x, y, 0.0);
          Grid[x, y] := square;
          y := y + 1;
        }
        x := x + 1;
      }
    }

    /** The indexer's `get`: the square at (x, y); an index outside the
        array throws. */
    function Get(x: int, y: int): (r: Result<GridSquare>)
      requires Valid()
      reads this, Grid
      ensures r.Ok? <==> 0 <= x < Width && 0 <= y < Height
      ensures r.Ok? ==> r.value == Grid[x, y]
      ensures r.Err? ==> r.error == IndexOutOfRangeException
    {
      if 0 <= x < Width && 0 <= y < Height then Ok(Grid[x, y]) else Err(IndexOutOfRangeException)
    }

    /** The indexer's `set`: cell (x, y) now holds value and no other cell
        changes; an index outside the array throws and changes nothing. */
    method Set(x: int, y: int, value: GridSquare) returns (r: Result<()>)
      requires Valid()
      modifies Grid
      ensures Valid()
      ensures r.Ok? <==> 0 <= x < Width && 0 <= y < Height
      ensures r.Err? ==> r.error == IndexOutOfRangeException
      ensures r.Ok? ==> Grid[x, y] == value
      ensures forall x', y' :: 0 <= x' < Width && 0 <= y' < Height && (x' != x || y' != y) ==>
                Grid[x', y'] == old(Grid[x', y'])
    {
      if 0 <= x < Width && 0 <= y < Height {
        Grid[x, y] := value;
        r := Ok(());
      } else {
        r := Err(IndexOutOfRangeException);
      }
    }

    /** `Midpoint`: the elevations summed row by row, divided by the wrapped
        area; it reads the grid and changes nothing. */
    method Midpoint() returns (mean: real)
      requires Valid() && WrappedArea(Width, Height) != 0
      ensures mean == MidpointOf(Elevations(), Width, Height)
    {
      ghost var m := Elevations();
      var sum := 0.0;
      var x := 0;
      while x < Width
        invariant 0 <= x <= Width
        invariant sum == BlockSum(m, 0, x, 0, Height)
      {
        var y := 0;
        while y < Height
          invariant 0 <= y <= Height
          invariant sum == BlockSum(m, 0, x, 0, Height) + RowSum(m[x], 0, y)
        {
          sum := sum + Grid[x, y].Elevation;
          y := y + 1;
        }
        x := x + 1;
      }
      mean := sum / (WrappedArea(Width, Height) as real);
    }

    /** `SamplePoints(n)` with its random draws given as `picks`, two per
        iteration: the squares at the n drawn cells, in order. The draws stay
        inside the grid unless a side is 0, when the indexer throws. */
    method SamplePoints(n: Int32, picks: seq<(int, int)>) returns (r: Result<seq<GridSquare>>)
      requires Valid()
      requires |picks| == if n < 0 then 0 else n
      requires forall k :: 0 <= k < |picks| ==> LegalDraw(picks[k].0, Width) && LegalDraw(picks[k].1, Height)
      ensures r.Ok? <==> n <= 0 || (Width > 0 && Height > 0)
      ensures r.Err? ==> r.error == IndexOutOfRangeException
      ensures r.Ok? ==> |r.value| == |picks|
      ensures r.Ok? ==> forall k :: 0 <= k < |picks| ==>
                0 <= picks[k].0 < Width && 0 <= picks[k].1 < Height
                && r.value[k] == Grid[picks[k].0, picks[k].1]
    {
      var points: seq<GridSquare> := [];
      var i := 0;
      while i < n
        invariant 0 <= i <= |picks|
        invariant |points| == i
        invariant i > 0 ==> Width > 0 && Height > 0
        invariant forall k :: 0 <= k < i ==>
                    0 <= picks[k].0 < Width && 0 <= picks[k].1 < Height
                    && points[k] == Grid[picks[k].0, picks[k].1]
      {
        var cell := Get(picks[i].0, picks[i].1);
        if cell.Err? {
          return Err(cell.error);
        }
        points := points + [cell.value];
        i := i + 1;
      }
      return Ok(points);
    }
  }

  /** Midpoint is a mean: over a grid that fits the `uint` product, it lies
      between the least and the greatest elevation. */
  lemma MidpointWithin(m: seq<seq<real>>, width: UInt32, height: UInt32, lo: real, hi: real)
    requires Rectangular(m, width, height) && 0 < width && 0 < height
    requires width * height < 0x1_0000_0000
    requires forall x, y :: 0 <= x < width && 0 <= y < height ==> lo <= m[x][y] <= hi
    ensures WrappedArea(width, height) != 0
    ensures lo <= MidpointOf(m, width, height) <= hi
  {
    TimesIsProduct(width, height);
    assert WrappedArea(width, height) == Times(width, height);
    assert Spans(m, 0, width, height);
    assert BlockWithin(m, 0, width, 0, height, lo, hi);
    BlockMeanBounds(m, 0, width, 0, height, lo, hi);
  }

  /** A grid of one elevation c has midpoint c. */
  lemma MidpointOfLevelGrid(m: seq<seq<real>>, width: UInt32, height: UInt32, c: real)
    requires Rectangular(m, width, height) && 0 < width && 0 < height
    requires width * height < 0x1_0000_0000
    requires forall x, y :: 0 <= x < width && 0 <= y < height ==> m[x][y] == c
    ensures WrappedArea(width, height) != 0
    ensures MidpointOf(m, width, height) == c
  {
    MidpointWithin(m, width, height, c, c);
  }

  /** A freshly constructed grid has midpoint 0: the requires are what
      `TerrainGrid`'s constructor ensures (a valid grid whose elevations are
      all 0), so this is MidpointOfLevelGrid at level 0 applied to it. */
  lemma FreshGridMidpoint(g: TerrainGrid)
    requires g.Valid() && 0 < g.Width && 0 < g.Height && g.Width * g.Height < 0x1_0000_0000
    requires forall x, y :: 0 <= x < g.Width && 0 <= y < g.Height ==> g.Grid[x, y].Elevation == 0.0
    ensures WrappedArea(g.Width, g.Height) != 0
    ensures MidpointOf(g.Elevations(), g.Width, g.Height) == 0.0
  {
    MidpointOfLevelGrid(g.Elevations(), g.Width, g.Height, 0.0);
  }
}
