# TerrainGen core, modelled in Dafny

TerrainGen is a C# desktop terrain generator. It builds height maps from
noise layers, smooths and resamples them, and uses a small job handler to
spread work over threads. This project models the parts of it that the rest
is built on, and proves what those parts promise:

- **`Utils.Color` and `KnownColorTable`** (`Utilities/Utilities/Color.cs`):
  - The colour value type is four read-only fields: a 64-bit value, a 16-bit
    state word of flags, an optional name and a 16-bit known-colour index.
  - Modelled: its flag queries, the channel accessors `A`/`R`/`G`/`B`,
    `ToArgb` and `ToKnownColor`, the four `FromArgb` overloads,
    `FromKnownColor`, `FromName`, and `==`, `!=` and `Equals`.
  - Also modelled: the known-colour tables after initialisation, with their
    lookups `KnownColorToArgb`, `KnownColorToName` and `ArgbToKnownColor`,
    and the packing helpers `Encode` and `FromWin32Value`.
  - The .NET integer widths are explicit (`Numerics`), and so are the
    unchecked narrowing casts.
  - A thrown exception is an `Err` of a `Result` (`Failures`).
- **`Utils.Array`** (`TerrainGen/Utilities/Array.cs`):
  - `Make1DArray` and `Make2DArray`, over Dafny arrays;
  - the box filter `Smooth`, as three nested loops over a 2-D array;
  - the argument check and row chunking of `BicubicInterpolation`.
  - `GridSums` holds the row-by-row block sums these loops compute.
- **`Utils.Math`** (`TerrainGen.Lib/Utilities/Math.cs`): `Clamp`, `Lerp`,
  `Blerp` and `Normalize`, over the reals.
- **`Vector2`, `MathEx.Map` and `Vector3`** (`TerrainGen/Vector2.cs`,
  `TerrainGen.Lib/Vector3.cs`):
  - The constructors only store their coordinates and nothing ever changes
    them, so each vector is a datatype and its constructor is the datatype
    constructor.
  - Modelled: `SquareDistaceTo` (the source's spelling) and `Map`.
- **`GridSquare` and `TerrainGrid`** (`TerrainGen/Generator/TerrainGrid.cs`):
  - Both are classes, and the grid is an `array2` of squares.
  - The constructor's loops, the indexer, `Midpoint` and `SamplePoints` are
    methods over that state.
- **`MultithreadingJobsHandler`** (`TerrainGen/Utilities/MultithreadingJobsHandler.cs`):
  - The thread-number array is a class: `CurrentThreadsAmount`,
    `ReserveThreadNumber` and `UnReserveThreadNumber` work on it, and its
    constructor sizes it with `GetMaxCurrentThreads`.
  - `MultithreadingJob` is a class too, with `AddJobNumber` and
    `AddJobNumberToJobParameters`.

The main results:

- **Colours:**
  - packing a colour's bytes and reading them back is the identity in both
    directions;
  - `FromArgb(argb).ToArgb() == argb` for every `int`;
  - every `FromArgb` overload throws exactly when a component is outside
    0..255;
  - `FromKnownColor` succeeds exactly on 1..174;
  - `ArgbToKnownColor` returns a colour with the target's ARGB word: the
    first non-system known colour holding the word, or, when none holds it,
    the plain ARGB colour. The one exception is the word 0, where it throws.
- **Equality:** `==` is identity, and `Equals` is a weaker equivalence that
  ignores differing non-null names.
- **Arrays:** `Make2DArray` and `Make1DArray` are inverse to each other.
- **Smoothing:** every smoothed cell is the mean of the cells its loops
  visit, so it stays in the input's range, and filter size 0 changes
  nothing. The loop bounds `x - filterSize` and `x + filterSize + 1` are
  32-bit `int` sums: when a bound wraps, or the filter size is negative, the
  loops visit no cell and the cell becomes 0 / 0, that is NaN.
- **Bicubic chunks:** each output row lies in exactly one chunk. Every
  chunk's jStart stays below outHeight, but the last chunk's jStop,
  `jStart + rowsPerChunk`, is a 32-bit `int` sum. When chunkCount ·
  rowsPerChunk passes int.MaxValue, that sum wraps negative and the last
  chunk fills no row. A 2147483591 × 1 output then leaves its last 5591 rows
  unfilled. Otherwise the chunks fill every row.
- **Blending:** `Lerp` and `Normalize` invert each other, and `Map` is their
  composition.
- **Terrain grid:** `Midpoint` is exactly the sum divided by the wrapped
  `uint` area. It is a true mean whenever that area does not wrap.
- **Thread numbers:**
  - `ReserveThreadNumber` takes the lowest free thread number and raises the
    count of used ones by one;
  - `UnReserveThreadNumber` frees one and lowers the count.

## Model

| member | source | states |
|---|---|---|
| Numerics.ToInt32 | Utilities/Utilities/Color.cs:2011-2014 | the unchecked `(int)` cast keeps the value modulo 2^32 and leaves every value already in range unchanged |
| Numerics.ToInt16 | Utilities/Utilities/Color.cs:1752-1758 | the unchecked `(short)` cast keeps the value modulo 2^16 and leaves every value already in range unchanged |
| Numerics.NatToString | Utilities/Utilities/Color.cs:1850-1857 | the decimal digits of n, with no leading zero except for 0 itself, whose value is n |
| Numerics.IntToString | Utilities/Utilities/Color.cs:1850-1857 | the decimal spelling an undefined enum value gets from `ToString()`: non-empty, a leading minus exactly for negatives, and digits whose value is the number's magnitude |
| Numerics.ToInt32Wraps | Utilities/Utilities/Color.cs:2902-2905 | the unchecked `(int)` cast of a value from 2^31 up to less than 2^32 + 2^31 subtracts 2^32 |
| Numerics.WrapOnceIsCast | TerrainGen/Utilities/Array.cs:196 | the one-comparison wrap used for Smooth's loop bounds is the unchecked `(int)` cast |
| Numerics.PackThenBytes | Utilities/Utilities/Color.cs:2902-2905 | the four bytes of a packed word are the bytes packed, and the word is negative exactly when the alpha is 128 or more |
| Numerics.BytesThenPack | Utilities/Utilities/Color.cs:2902-2905 | every `int` is the packing of its own four bytes |
| Numerics.CastKeepsBytes | Utilities/Utilities/Color.cs:1600-1648 | narrowing the 64-bit word to `int` keeps its four low bytes, so a channel read from Value is the same byte of ToArgb |
| Numerics.DivideByCount | TerrainGen/Utilities/Array.cs:212 | `sum / counter` in `double`: NaN exactly when no term was added, else a quotient that times the count gives the sum |
| KnownColorData.SystemColorToArgb | Utilities/Utilities/Color.cs:2864-2900 | every default system colour is a 24-bit COLORREF word, so its top byte is 0 |
| KnownColorData.ColorTableAt | Utilities/Utilities/Color.cs:2508-2654 | 0 at index 0 and past the table; a 24-bit COLORREF at every system index; 0x00FFFFFF for Transparent (27); an opaque word (alpha 255) for each named colour 28..167 |
| KnownColorData.ColorNameAt | Utilities/Utilities/Color.cs:2664-2842 | the name table, with a name exactly at indices 1..174 and null at index 0 |
| Colors.Color.IsKnownColor | Utilities/Utilities/Color.cs:1653-1659 | a known colour has a non-zero state, so it is never empty |
| Colors.Color.IsEmpty | Utilities/Utilities/Color.cs:1664-1670 | an empty colour has none of the known-colour, name and value flags |
| Colors.Color.IsNamedColor | Utilities/Utilities/Color.cs:1675-1681 | every known colour is named, and a named colour is never empty |
| Colors.Color.IsSystemColor | Utilities/Utilities/Color.cs:1686-1692 | a system colour is known and named; a known colour is a system colour exactly when its index lies outside 27..167 |
| Colors.Color.Value | Utilities/Utilities/Color.cs:1736-1750 | the packed word: the stored value when the ARGB-valid flag is set, else the table entry of a known colour, else 0 |
| Colors.Color.A | Utilities/Utilities/Color.cs:1642-1648 | the alpha channel is the top byte of the ARGB int |
| Colors.Color.R | Utilities/Utilities/Color.cs:1600-1606 | the red channel is the third byte of the ARGB int |
| Colors.Color.G | Utilities/Utilities/Color.cs:1614-1620 | the green channel is the second byte of the ARGB int |
| Colors.Color.B | Utilities/Utilities/Color.cs:1628-1634 | the blue channel is the low byte of the ARGB int |
| Colors.Color.ToArgb | Utilities/Utilities/Color.cs:2011-2014 | the stored value when the value flag is set and it fits an `int`, the table word of a known colour without it, and 0 for a colour with neither |
| Colors.Color.ToKnownColor | Utilities/Utilities/Color.cs:2019-2022 | the stored `short` index, which is a valid table index exactly when it is not negative |
| Colors.KnownColorCtor | Utilities/Utilities/Color.cs:1752-1758 | a colour built from an index is known, not empty, unnamed, and keeps any index that fits in a `short` |
| Colors.KnownColorToArgb | Utilities/Utilities/Color.cs:2844-2852 | the colour table entry for 0..174; 0 above MenuHighlight; IndexOutOfRangeException exactly for a negative index |
| Colors.KnownColorToName | Utilities/Utilities/Color.cs:2854-2862 | the name table entry for 0..174; null above MenuHighlight; an exception exactly for a negative index |
| Colors.Encode | Utilities/Utilities/Color.cs:2902-2905 | the packed `int` reads back the four bytes it was given and is negative exactly for an alpha of 128 or more |
| Colors.FromWin32Value | Utilities/Utilities/Color.cs:2907-2910 | alpha 255, red from the COLORREF's low byte, green from its second byte and blue from its third |
| Colors.MakeArgb | Utilities/Utilities/Color.cs:1776-1779 | the `long` holds an `int`, is negative exactly for an alpha of 128 or more, and its four bytes are the channels |
| Colors.FromArgbValue | Utilities/Utilities/Color.cs:1788-1791 | FromArgb(argb).ToArgb() == argb for every `int`, and the colour is neither known, named nor empty |
| Colors.FromArgb | Utilities/Utilities/Color.cs:1805-1812 | succeeds exactly when all four components are bytes, and throws ArgumentException otherwise |
| Colors.FromArgbBase | Utilities/Utilities/Color.cs:1824-1828 | succeeds exactly when alpha is a byte, and throws ArgumentException otherwise |
| Colors.FromRgb | Utilities/Utilities/Color.cs:1841-1844 | succeeds exactly when all three channels are bytes, and throws ArgumentException otherwise |
| Colors.FromKnownColor | Utilities/Utilities/Color.cs:1850-1857 | succeeds exactly on 1..174 with the known colour of that index; any other value throws NotImplementedException through FromName |
| Colors.CheckByte | Utilities/Utilities/Color.cs:1768-1774 | succeeds exactly on 0..255, else ArgumentException |
| Colors.FromName | Utilities/Utilities/Color.cs:1863-1872 | always throws NotImplementedException |
| Colors.ScanColorTable | Utilities/Utilities/Color.cs:2486-2497 | the scan loop over any colour table computes the recursive search ArgbSearchFrom from index 0 |
| Colors.ArgbToKnownColor | Utilities/Utilities/Color.cs:2483-2498 | the scan of the known-colour table returns what ArgbSearchFrom over that table returns |
| ColorProperties.BytesThenEncode | Utilities/Utilities/Color.cs:2902-2905 | every `int` is the packing of its own four bytes |
| ColorProperties.ArgbColorChannels | Utilities/Utilities/Color.cs:1776-1779 | a colour made by MakeArgb reads back its four channels and is neither known, named, system nor empty |
| ColorProperties.FromArgbChannels | Utilities/Utilities/Color.cs:1805-1812 | for four bytes, the colour's channels read back the arguments, and it is neither known, named, system nor empty |
| ColorProperties.FromRgbOpaque | Utilities/Utilities/Color.cs:1841-1844 | for three bytes, the colour is opaque (alpha 255) with those channels |
| ColorProperties.FromArgbBaseKeepsRgb | Utilities/Utilities/Color.cs:1824-1828 | for a byte alpha, the colour takes that alpha and keeps the base's red, green and blue |
| ColorProperties.FromArgbOfBytes | Utilities/Utilities/Color.cs:1788-1812 | splitting a word into bytes and passing them to FromArgb(a, r, g, b) gives the word back |
| ColorProperties.EmptyIsZero | Utilities/Utilities/Color.cs:15 | Color.Empty is empty, not known or named, and reads as the all-zero word |
| ColorProperties.NamedColorValues | Utilities/Utilities/Color.cs:2512-2520 | Black is #FF000000 and AliceBlue is #FFF0F8FF, channel by channel |
| ColorProperties.KnownColorCtorValue | Utilities/Utilities/Color.cs:1736-1758 | a colour built from index 0..174 reports that index and reads its ARGB word from the table |
| ColorProperties.FromKnownColorCases | Utilities/Utilities/Color.cs:1850-1857 | FromKnownColor succeeds iff 1..174 and gives the known colour; otherwise it throws via FromName; system colour iff index <= 26 or > 167 |
| ColorProperties.SystemColorsAreTransparent | Utilities/Utilities/Color.cs:2913-2948 | every system colour stores a raw COLORREF, so its alpha is 0 |
| ColorProperties.KnownColorNames | Utilities/Utilities/Color.cs:2664-2842 | exactly the indices FromKnownColor accepts have a name, and sample entries read back their enumeration names |
| Colors.OpEquality | Utilities/Utilities/Color.cs:2067-2070 | `==` holds exactly when the two colour values are equal |
| Colors.OpInequality | Utilities/Utilities/Color.cs:2077-2080 | `!=` holds exactly when the two colour values differ |
| Colors.Equals | Utilities/Utilities/Color.cs:2086-2097 | holds exactly when obj is a colour with the same value, state and index and either the same name or two non-null names |
| ColorProperties.EqualsWeakerThanOpEquality | Utilities/Utilities/Color.cs:2067-2097 | Equals accepts every pair `==` accepts, and is false for an object that is not a colour |
| ColorProperties.EqualsIgnoresNames | Utilities/Utilities/Color.cs:2093 | two colours differing only in non-null names are Equals but not `==` |
| ColorProperties.EqualsIsEquivalence | Utilities/Utilities/Color.cs:2086-2097 | Equals is reflexive, symmetric and transitive |
| ColorProperties.SearchFromSpec | Utilities/Utilities/Color.cs:2486-2497 | from any index past 0, the scan returns the first matching non-system known colour or else the plain ARGB colour, and never throws |
| ColorProperties.ArgbToKnownColorSpec | Utilities/Utilities/Color.cs:2483-2498 | throws iff the target is 0; otherwise the result's ARGB word is the target, and it is the first non-system match or the plain ARGB colour when none matches |
| ColorProperties.LowSystemColorsSkipped | Utilities/Utilities/Color.cs:2488-2494 | matches among the system colours 1..26 never end the scan |
| ColorProperties.ArgbToKnownColorFindsBlack | Utilities/Utilities/Color.cs:2483-2498 | looking up Black's word returns Black |
| GridSums.BlockMeanBounds | TerrainGen/Utilities/Array.cs:193-212 | the mean of a non-empty block of values in [lo, hi] lies in [lo, hi] |
| Arrays.OffsetIsRowMajor | TerrainGen/Utilities/Array.cs:177 | a bridge for the proofs: the recursive position Offset of (x, y) used in the loop invariants is x * width + y |
| Arrays.Flatten | TerrainGen/Utilities/Array.cs:169-182 | the rows laid end to end: every row fits in the result, which is empty exactly when every row is |
| Arrays.FlattenIndex | TerrainGen/Utilities/Array.cs:169-182 | flattening h rows of w gives h * w entries with (x, y) at x * w + y |
| Arrays.Reshape | TerrainGen/Utilities/Array.cs:156-167 | cutting a sequence into h rows of w gives an h-by-w grid with (i, j) taken from i * w + j |
| Arrays.ReshapeFlatten | TerrainGen/Utilities/Array.cs:156-182 | reshaping a flattened grid gives the grid back |
| Arrays.FlattenReshape | TerrainGen/Utilities/Array.cs:156-182 | flattening a reshaped sequence of h * w entries gives the sequence back |
| Arrays.Make1DArray | TerrainGen/Utilities/Array.cs:169-182 | a new array of length rows * cols holding cell (x, y) at x * cols + y, that is, the flattened rows |
| Arrays.Make2DArray | TerrainGen/Utilities/Array.cs:156-167 | throws IndexOutOfRangeException iff height * width exceeds the input; otherwise a new height-by-width array equal to the reshaped input |
| Arrays.LoopBoundsAreCasts | TerrainGen/Utilities/Array.cs:196 | the loop bounds are the unchecked `int` values of x - filterSize and x + filterSize + 1 |
| Arrays.WindowSpan | TerrainGen/Utilities/Array.cs:196-199 | for a filter size f >= 0 whose bound x + f + 1 fits an `int`, the visited rows are [x - f, x + f] clipped to the grid and include x; once that bound wraps no row is visited; for f < 0 none is visited unless x - f wraps, which needs x >= 2^30 |
| Arrays.WindowHi | TerrainGen/Utilities/Array.cs:196-199 | the visited rows end no earlier than they start and no later than the grid |
| Arrays.SpanEntry | TerrainGen/Utilities/Array.cs:196 | a loop from start enters the clipped span at its first index |
| Arrays.SpanVisit | TerrainGen/Utilities/Array.cs:196-199 | an index the loop reaches passes the bounds test exactly when it lies in the clipped span [SpanLo, SpanHi) |
| Arrays.SpanExit | TerrainGen/Utilities/Array.cs:196 | when the loop stops, every index of the clipped span has been visited |
| Arrays.WindowCountCases | TerrainGen/Utilities/Array.cs:193-212 | the loops visit at least one cell when neither bound wraps, and none when a bound wraps or when f < 0 on a grid of fewer than 2^30 rows or columns |
| Arrays.SmoothCell | TerrainGen/Utilities/Array.cs:193-212 | NaN exactly when the loops visit no cell; otherwise its value times the number of visited cells is their sum |
| Arrays.SmoothCellNaN | TerrainGen/Utilities/Array.cs:193-212 | a cell is never NaN while x + f + 1 and y + f + 1 fit an `int`, always NaN once one wraps, and always NaN for a negative filter size on a grid of fewer than 2^30 rows or columns (so `[[5.0]]` with filter size 2147483647 gives NaN) |
| Arrays.SmoothZeroIsIdentity | TerrainGen/Utilities/Array.cs:193-212 | with filter size 0 a smoothed cell is the input cell, never NaN |
| Arrays.SmoothWithinRange | TerrainGen/Utilities/Array.cs:193-212 | a smoothed cell that is not NaN lies within the least and greatest input values, for every filter size |
| Arrays.RowWindow | TerrainGen/Utilities/Array.cs:201-209 | the innermost loop from jStart up to jStop adds up exactly the in-bounds cells it visits and counts them |
| Arrays.BlockWindow | TerrainGen/Utilities/Array.cs:196-209 | the two inner loops add up exactly the in-bounds cells they visit, row by row, and count them |
| Arrays.WindowMean | TerrainGen/Utilities/Array.cs:193-212 | the two inner loops around (x, y) and the division `aaValue / counter` give SmoothCell, NaN included |
| Arrays.Smooth | TerrainGen/Utilities/Array.cs:185-217 | a new array of the same shape holding SmoothCell at every cell; for filter size 0 every cell is the input cell |
| Arrays.BicubicChunks | TerrainGen/Utilities/Array.cs:72-97 | throws ArgumentException iff an output size is below 1, and otherwise gives at least one row per chunk and at least one chunk |
| Arrays.CeilingDivision | TerrainGen/Utilities/Array.cs:96-97 | chunkCount, the row count divided by rowsPerChunk and rounded up, is at least 1 and the least count of chunks that reaches outHeight |
| Arrays.BicubicChunkSizes | TerrainGen/Utilities/Array.cs:89-97 | a chunk has at least one row and at most 6000 cells unless one row is wider; chunkCount is the least count of chunks covering the rows |
| Arrays.ChunkStart | TerrainGen/Utilities/Array.cs:105 | jStart of chunk c is c chunk lengths along, and the next chunk starts one chunk length later |
| Arrays.ChunkStop | TerrainGen/Utilities/Array.cs:106-110 | jStop is the unchecked `int` sum jStart + rowsPerChunk cut at outHeight. While the sum fits, it is the chunk's end, past a jStart below outHeight. Once the sum passes int.MaxValue, jStop is the sum minus 2^32, a negative number |
| Arrays.FilledRows | TerrainGen/Utilities/Array.cs:103-112 | with covering chunks it is at most outHeight, and equals outHeight exactly when chunkCount · rowsPerChunk fits an `int` |
| Arrays.ChunkSums | TerrainGen/Utilities/Array.cs:105-106 | every chunk's jStart is below outHeight, so `chunkNumber * rowsPerChunk` never wraps. jStart + rowsPerChunk is below 2^32, and below outHeight for every chunk but the last |
| Arrays.ChunkEndsAt | TerrainGen/Utilities/Array.cs:105-112 | chunk c's loop fills up to the next chunk's jStart, or up to FilledRows for the last chunk |
| Arrays.RowInOneChunk | TerrainGen/Utilities/Array.cs:103-111 | with covering chunks, row j lies in chunk j / rowsPerChunk and no other |
| Arrays.BicubicChunksPartitionRows | TerrainGen/Utilities/Array.cs:103-112 | chunk c's [jStart, jStop) holds row j exactly when c is j / rowsPerChunk and j is below FilledRows, so no row is in two chunks |
| Arrays.BicubicLastChunkSkipped | TerrainGen/Utilities/Array.cs:103-112 | the last chunk's loop runs no row iff chunkCount · rowsPerChunk is at least 2^31; otherwise its jStop is outHeight |
| Arrays.BicubicTallOutputLosesRows | TerrainGen/Utilities/Array.cs:89-112 | for a 2147483591 × 1 output: 357914 chunks of 6000 rows, and the last starts at 2147478000. Its jStop wraps to -2147483296, so only 2147478000 rows are filled |
| Arrays.BicubicRowSchedule | TerrainGen/Utilities/Array.cs:96-112 | running the chunks in order visits rows 0 up to FilledRows once each, in order. That is all outHeight rows iff chunkCount · rowsPerChunk fits an `int`. The argument check throws iff a size is below 1 |
| UtilMath.Clamp | TerrainGen.Lib/Utilities/Math.cs:14-17 | the result is in [min, max] when min <= max, is value inside the range, and is min below it even when min > max |
| UtilMath.ClampIdempotent | TerrainGen.Lib/Utilities/Math.cs:14-17 | clamping twice is clamping once |
| UtilMath.Lerp | TerrainGen.Lib/Utilities/Math.cs:19-22 | gives the first endpoint at 0 and the second at 1 |
| UtilMath.LerpOffset | TerrainGen.Lib/Utilities/Math.cs:19-22 | Lerp(a, b, t) is a + (b - a) * t |
| UtilMath.LerpBetween | TerrainGen.Lib/Utilities/Math.cs:19-22 | for t in [0, 1] the result stays between the endpoints |
| UtilMath.Blerp | TerrainGen.Lib/Utilities/Math.cs:24-27 | at the four corners of the unit square Blerp gives the corner values |
| UtilMath.BlerpBetween | TerrainGen.Lib/Utilities/Math.cs:24-27 | inside the unit square Blerp stays between the least and greatest corner |
| UtilMath.Normalize | TerrainGen.Lib/Utilities/Math.cs:29 | gives 0 at min and 1 at max |
| UtilMath.NormalizeLerp | TerrainGen.Lib/Utilities/Math.cs:29 | Normalize undoes Lerp from min to max |
| UtilMath.LerpNormalize | TerrainGen.Lib/Utilities/Math.cs:29 | Lerp from min to max undoes Normalize |
| UtilMath.NormalizeUnitRange | TerrainGen.Lib/Utilities/Math.cs:29 | between min and max, Normalize lies in [0, 1] |
| Vector2Math.Vector2.SquareDistaceTo | TerrainGen/Vector2.cs:19-20 | never negative, and 0 from a point to itself |
| Vector2Math.SquareDistanceSymmetric | TerrainGen/Vector2.cs:19-20 | the squared distance from p to q equals that from q to p |
| Vector2Math.Map | TerrainGen/Vector2.cs:28-29 | sends start1 to start2 and stop1 to stop2 |
| Vector2Math.MapIsLerpOfNormalize | TerrainGen/Vector2.cs:28-29 | Map is Lerp over the target range of Normalize over the source range |
| Vector2Math.MapIdentity | TerrainGen/Vector2.cs:28-29 | mapping [0, 1] onto itself changes nothing |
| Vector2Math.MapInverse | TerrainGen/Vector2.cs:28-29 | mapping back from the target range restores the input |
| Vector3Math.Vector3.SquareDistaceTo | TerrainGen.Lib/Vector3.cs:20-21 | never negative, and 0 from a point to itself |
| Vector3Math.SquareDistanceSymmetric | TerrainGen.Lib/Vector3.cs:20-21 | the squared distance from p to q equals that from q to p |
| Terrain.GridSquare.constructor | TerrainGen/Generator/TerrainGrid.cs:9-13 | a square holds the coordinates and elevation it was given |
| Terrain.TerrainGrid.constructor | TerrainGen/Generator/TerrainGrid.cs:24-37 | the grid is width by height and cell (x, y) holds a new square at (x, y) with elevation 0 |
| Terrain.TerrainGrid.Get | TerrainGen/Generator/TerrainGrid.cs:39-44 | the square at (x, y), and IndexOutOfRangeException exactly outside the grid |
| Terrain.TerrainGrid.Set | TerrainGen/Generator/TerrainGrid.cs:45-48 | cell (x, y) now holds the value and no other cell changes; outside the grid it throws |
| Terrain.MidpointOf | TerrainGen/Generator/TerrainGrid.cs:51-62 | the result times the wrapped `uint` area is the row-by-row sum of the elevations |
| Terrain.TerrainGrid.Midpoint | TerrainGen/Generator/TerrainGrid.cs:51-62 | the sum of all elevations divided by the `uint` product Width * Height |
| Terrain.TerrainGrid.SamplePoints | TerrainGen/Generator/TerrainGrid.cs:64-74 | the n squares at the drawn cells, in order; it throws iff n > 0 and a side is 0 |
| Terrain.MidpointWithin | TerrainGen/Generator/TerrainGrid.cs:51-62 | when the area does not wrap, Midpoint lies between the least and greatest elevation |
| Terrain.MidpointOfLevelGrid | TerrainGen/Generator/TerrainGrid.cs:51-62 | a grid of one elevation has that elevation as its midpoint |
| Terrain.FreshGridMidpoint | TerrainGen/Generator/TerrainGrid.cs:24-62 | a grid in the state the constructor ensures, all at elevation 0, has midpoint 0 (MidpointOfLevelGrid at level 0) |
| JobsHandler.GetMaxCurrentThreads | TerrainGen/Utilities/MultithreadingJobsHandler.cs:56-72 | one processor left out, two when more than four threads would remain; always fewer threads than processors |
| JobsHandler.GetMaxCurrentThreadsMonotonic | TerrainGen/Utilities/MultithreadingJobsHandler.cs:56-72 | more processors never give fewer threads |
| JobsHandler.CountTrue | TerrainGen/Utilities/MultithreadingJobsHandler.cs:35-51 | the number of used slots is at most the number of slots |
| JobsHandler.CountTrueFull | TerrainGen/Utilities/MultithreadingJobsHandler.cs:360-381 | every slot is used iff the count equals the length, which is when reserving fails |
| JobsHandler.FirstFree | TerrainGen/Utilities/MultithreadingJobsHandler.cs:360-381 | -1 iff no slot is free, else the lowest free slot |
| JobsHandler.ReserveRaisesCount | TerrainGen/Utilities/MultithreadingJobsHandler.cs:360-381 | reserving the lowest free slot raises the count by one |
| JobsHandler.ReleaseLowersCount | TerrainGen/Utilities/MultithreadingJobsHandler.cs:386-390 | releasing a used slot lowers the count by one |
| JobsHandler.ThreadNumbers.constructor | TerrainGen/Utilities/MultithreadingJobsHandler.cs:77-82 | one free slot per usable thread |
| JobsHandler.ThreadNumbers.CurrentThreadsAmount | TerrainGen/Utilities/MultithreadingJobsHandler.cs:35-51 | the number of slots in use |
| JobsHandler.ThreadNumbers.ReserveThreadNumber | TerrainGen/Utilities/MultithreadingJobsHandler.cs:360-381 | succeeds iff a slot is free, reports the lowest free slot and marks only it used; otherwise reports -1 and changes nothing |
| JobsHandler.ThreadNumbers.UnReserveThreadNumber | TerrainGen/Utilities/MultithreadingJobsHandler.cs:386-390 | marks only that slot free; an index outside the array throws and changes nothing |
| JobsHandler.MultithreadingJob.constructor | TerrainGen/Utilities/MultithreadingJobsHandler.cs:412-418 | stores the delegate and parameters; the thread number starts at 0 |
| JobsHandler.MultithreadingJob.AddJobNumber | TerrainGen/Utilities/MultithreadingJobsHandler.cs:447-450 | sets the thread number and nothing else |
| JobsHandler.MultithreadingJob.AddJobNumberToJobParameters | TerrainGen/Utilities/MultithreadingJobsHandler.cs:456-466 | a new array of the boxed thread number followed by the parameters, which are left unchanged |

## Left out

- Vector2Math.Vector2.SquareDistaceTo: states that the result is never negative and is 0 for equal points, but not that it is 0 only for equal points. The solver does not close that converse for a sum of products.
- Vector3Math.Vector3.SquareDistaceTo: weaker in the same way.
- Terrain.TerrainGrid.Midpoint: requires a non-zero wrapped area. C# divides the `double` sum by a zero `uint` product without throwing and yields an infinity or NaN, which reals cannot represent.
- Terrain.TerrainGrid.constructor: requires both sizes below 2^31. The loop counters are `int`, and .NET cannot allocate a larger array dimension.
- Terrain.TerrainGrid.SamplePoints:
  - `Random` is replaced by its draws, given as input and each in [0, max), or 0 when max is 0;
  - `(int)Width` of a side of 2^31 or more, where `Random.Next` would throw, is not modelled, because no such grid can be allocated.
- Terrain.TerrainGrid.Set: takes a non-null square. Storing null, which a later read would dereference, is not modelled.
- `TerrainGrid`'s public setters for `Width`, `Height` and `Grid` are not modelled. The model keeps them consistent: `Valid()` ties the sizes to the array.
- `GridSquare.ToString` and `DistanceTo` with `MathEx.Sqrt` are left out. They are string formatting and floating-point square roots.
- Colors.Color.Value: requires a non-negative known-colour index. The source reaches the table with a negative index only through an internal constructor call with an out-of-range enum value, which would throw IndexOutOfRangeException (`KnownColorToArgb` models that error).
- The HSB accessors, `Name`, `ToString` and `GetHashCode` of `Color` are left out. They are floating-point or string formatting, and none of the modelled code uses them.
- The lazy initialisation of the colour tables (`EnsureColorTable`, `InitColorTable`, `InitColorNameTable`, `UpdateSystemColors`) is modelled by its result. The tables are constants holding the values the initialisation writes.
- `ArgbToKnownColor` is compiled only when `NETSTANDARD20` is undefined. The model always includes it.
- Floating point: every C# `double` and `float` is a Dafny `real`. Rounding and infinities are not modelled, and NaN only where Smooth divides 0 by 0 (`Numerics.Double`), so Clamp's and Map's behaviour on NaN is not captured.
- Arrays.Smooth:
  - the `float[,]` overload is the same algorithm over a narrower type, so the one `real` model stands for both;
  - requires both lengths below 2^31: `GetLength` returns an `int`, and .NET allocates no larger dimension;
  - the `int` counter is taken as exact. It wraps only in a window of more than 2^31 - 1 cells, an array of at least 16 GiB of `double`, which is not modelled.
- Arrays.Make2DArray: takes `nat` sizes. A negative size, where allocating the array throws OverflowException, is not modelled.
- Arrays.Make1DArray: the `int` product of the two lengths is taken as exact. Arrays large enough to overflow it cannot be allocated.
- BicubicInterpolation: the cubic arithmetic per cell, the fractional source positions and `Parallel.For` are left out. The model covers the argument check and the rows each chunk covers, with jStop's 32-bit wrap, run in chunk order; concurrency is not modelled.
- MultithreadingJobsHandler:
  - The handler's static thread-number array is an object of class `ThreadNumbers`.
  - `Environment.ProcessorCount` is a parameter of its constructor.
  - The job queue, the threads and the locks are left out because they are concurrency.
  - Invoking the job delegate (`DynamicInvoke`) and `HandleError` call code that is not part of this model.
  - A job's parameters are a `Boxed` value: a boxed `int` or another object.
