# Rasterer: query box to tile grid

This project models `Rasterer.getMapRaster` of the bearmaps map server and proves
properties of the model. A query names a box (upper-left and lower-right
longitude/latitude) and a viewport width `w` in pixels. The map server keeps a
pyramid of tile images over a fixed root box: at depth `d` the root is cut into
`2^d` equal columns and `2^d` equal rows, and tile `(d, x, y)` is the image file
`d<d>_x<x>_y<y>.png`. `getMapRaster` does five things:

1. It rejects queries that miss the root box or stick out past it on all four sides.
2. It picks the coarsest depth in `0..6` whose tile LonDPP is at most the query's
   LonDPP, or 7 when no depth below 7 is. LonDPP is longitude per pixel, and a
   tile is 256 pixels wide.
3. It finds the top and bottom rows and the left and right columns by four
   linear scans that slide a pair of band edges across the root.
4. It fills a row-major grid of tile names.
5. It returns the box the grid covers.

Files:

- `pyramid.dfy` (module `Pyramid`): the root box, tile spans, band edges, the
  band test the scans apply, and a closed form of the band index.
- `tile_names.dfy` (module `TileNames`): tile file names, their decimal
  formatting and a parser that recovers `(d, x, y)`.
- `rasterer.dfy` (module `Rasterer`): rejection, depth selection, the four
  scans, the grid fill, the extent and `GetMapRaster` itself.

Modelling choices:

- Coordinates are `real`, and `2^d` is an exact integer power.
- The root box comes from `MapServer`, whose source is not part of this model.
  It is a parameter `root: Root`. `Root.Valid()` requires
  `ROOT_LRLON - ROOT_ULLON > 0` and `ROOT_ULLAT - ROOT_LRLAT > 0`.
- The viewport width must be positive.
- `RasterRequestParams` and `RasterResultParams` are not part of this model.
  They become the datatypes `RasterRequest` and `RasterResult`. `RasterResult`
  is either `QueryFailed` or a `Raster` with the grid, the depth, the four
  extent values and the success flag.
- The grid is an `array2<string>` filled in place, as the source fills its
  `String[][]`.
- The scans are methods with loops. Their invariants show that the edges the
  loops accumulate step by step equal the closed-form edges
  `ROOT_ULLON + k * lonPerBox` and `ROOT_ULLAT - k * latPerBox`.
- Each scan is proved equal to a closed form (`TopIndex`, `BottomIndex`,
  `LeftIndex`, `RightIndex`). The closed form takes the offset of the
  coordinate from the root edge in tile spans, `t`, and returns `floor(t)` when
  `t` lies strictly inside `(0, 2^d)` and is not an integer. Otherwise it
  returns the fallback.
- A query box that is inverted can make `bottomY - topY + 1` or
  `rightX - leftX + 1` negative. An inverted box has `ullat < lrlat` or
  `ullon > lrlon`. Java then throws `NegativeArraySizeException` while
  allocating the grid. The model returns `Response.NegativeArraySize` in that
  case; it does not forbid such queries.
- An inverted box can also get an empty grid marked successful: when its
  upper latitude lies in the row just below its lower latitude's row,
  `bottomY - topY + 1` is 0, and Java allocates a grid with no rows without
  complaint (`InvertedBoxGetsEmptyGrid`).

Two quirks of the code are kept as written:

- The depth loop bound is the literal `8`, not `MAX_DEPTH + 1`. The two agree.
- The band tests are strict on both sides. A coordinate exactly on a tile edge
  lies in no band and gets the fallback index: 0 for top and left, `2^d - 1`
  for bottom and right. One could read the bands as half-open, so that an edge
  coordinate belongs to the band below it. The model follows the code instead.
  One consequence: a box whose left edge lies exactly on an inner column edge
  gets every column from 0 rightwards. So a box narrower than one tile can
  still get a grid wider than two tiles (`EdgeAlignedBoxGetsColumnsFromZero`).

A wider viewport lowers the desired LonDPP, so for any box the depth can only
stay or grow as the viewport widens (`DepthGrowsWithViewport`). A box inverted
or empty in longitude asks for a LonDPP of zero or less; no tile is that sharp,
so it always gets the default depth 7.

The first two rejection checks (lines 39-47) are implied by the last two
(lines 54-59). The rejection contract therefore reads: the box strictly
contains the root, or it misses the closed root box on some side.

## Model

| member | source | states |
|---|---|---|
| `Pyramid.LonPerBox` | src/main/java/Rasterer.java:156-158 | a column's longitude span is positive, and `2^d` spans make up the root's width |
| `Pyramid.LatPerBox` | src/main/java/Rasterer.java:120-122 | a row's latitude span is positive, and `2^d` spans make up the root's height |
| `Pyramid.LonPerBoxAntitone` | src/main/java/Rasterer.java:66-67 | deeper levels have narrower tiles |
| `Pyramid.EdgeStep` | src/main/java/Rasterer.java:130-132 | sliding an edge by one tile span reaches the next closed-form edge, in both directions and on both axes |
| `Pyramid.OuterEdges` | src/main/java/Rasterer.java:141-142 | edge 0 is the root's top/left edge and edge `2^d` is its bottom/right edge, where the bottom and right scans start |
| `Pyramid.EdgesStrictlyMonotone` | src/main/java/Rasterer.java:127 | edges are strictly ordered by index on both axes (iff), so the open bands are disjoint |
| `Pyramid.InLonBandIff` | src/main/java/Rasterer.java:163 | the column test `ULLon < lon < LRLon` holds exactly when the tile offset lies in the open unit interval of that column |
| `Pyramid.InLatBandIff` | src/main/java/Rasterer.java:127 | the row test `LRLat < lat < ULLat` holds exactly when the tile offset lies in the open unit interval of that row |
| `Pyramid.BandOf` | src/main/java/Rasterer.java:119-189 | the closed-form index lies in range and its open interval holds `t`; otherwise it is the fallback and no interval in range holds `t` |
| `Pyramid.BandOfInUnit` | src/main/java/Rasterer.java:126-129 | a `t` inside interval `k` gets exactly `k`, whatever the fallback |
| `Rasterer.LonDPP` | src/main/java/Rasterer.java:200-202 | the LonDPP times the width gives back the box's longitude span |
| `Rasterer.Rejected` | src/main/java/Rasterer.java:39-59 | rejection (the box strictly contains the root, or misses the closed root box on some side) holds exactly when one of the five checks as written fails the query |
| `Rasterer.DesiredLonDPP` | src/main/java/Rasterer.java:61 | the query's LonDPP times the viewport width is the box's longitude span, and it is positive exactly when the box is not inverted or empty in longitude |
| `Rasterer.TileLonDPP` | src/main/java/Rasterer.java:66-70 | the LonDPP of the first tile at depth `i` is positive, and times 256 pixels it is the tile's longitude span |
| `Rasterer.TileLonDPPAntitone` | src/main/java/Rasterer.java:66-70 | deeper tiles have a LonDPP no larger than shallower ones |
| `Rasterer.CoarsestDepthUnique` | src/main/java/Rasterer.java:61-75 | at most one depth is the coarsest sufficient one |
| `Rasterer.FirstSharpEnough` | src/main/java/Rasterer.java:64-75 | searching from depth `from` upward gives a depth that is at least `from` and is the coarsest sufficient one |
| `Rasterer.CoarsestDepth` | src/main/java/Rasterer.java:61-75 | the chosen depth is at most 7. Every shallower depth is too coarse. Below 7 the chosen depth is sharp enough |
| `Rasterer.CoarsestDepthIsThreshold` | src/main/java/Rasterer.java:19-21 | a depth below the chosen one is too coarse. Every depth from the chosen one on is sharp enough, unless the default 7 was taken |
| `Rasterer.DepthMonotone` | src/main/java/Rasterer.java:61-75 | asking for a smaller LonDPP never gives a shallower depth |
| `Rasterer.NonPositiveDesiredGetsMaxDepth` | src/main/java/Rasterer.java:63-75 | a desired LonDPP of zero or less takes the default depth 7, since no tile qualifies |
| `Rasterer.DepthGrowsWithViewport` | src/main/java/Rasterer.java:61 | for every box, a wider viewport never gives a shallower depth |
| `Rasterer.DepthGrowsAsBoxNarrows` | src/main/java/Rasterer.java:200-202 | at the same viewport width, a narrower box never gives a shallower depth |
| `Rasterer.SelectDepth` | src/main/java/Rasterer.java:61-75 | the depth loop, default 7 and bound 8, returns the coarsest sufficient depth |
| `Rasterer.LatBandIndex` | src/main/java/Rasterer.java:126-129 | a latitude strictly inside row `i` gets row `i` from both latitude scans |
| `Rasterer.LonBandIndex` | src/main/java/Rasterer.java:162-165 | a longitude strictly inside column `i` gets column `i` from both longitude scans |
| `Rasterer.NoLatBandFallback` | src/main/java/Rasterer.java:134 | a latitude in no row's interior gets 0 from topY and `2^d - 1` from bottomY |
| `Rasterer.NoLonBandFallback` | src/main/java/Rasterer.java:170 | a longitude in no column's interior gets 0 from leftX and `2^d - 1` from rightX |
| `Rasterer.EdgeOrOutsideLatHasNoBand` | src/main/java/Rasterer.java:145 | a latitude exactly on a row edge, or not strictly inside the root, is in no row's interior |
| `Rasterer.EdgeOrOutsideLonHasNoBand` | src/main/java/Rasterer.java:181 | a longitude exactly on a column edge, or not strictly inside the root, is in no column's interior |
| `Rasterer.InvertedBoxGetsEmptyGrid` | src/main/java/Rasterer.java:78-84 | for every root and every viewport whose depth is at least 1, a full-width box whose upper latitude lies in row 1 and lower latitude in row 0 is accepted and gets `topY = 1`, `bottomY = 0`: a grid of zero rows |
| `Rasterer.EdgeAlignedBoxGetsColumnsFromZero` | src/main/java/Rasterer.java:163 | at depth 2, a half-column-wide box starting exactly on the edge of column 2 gets columns 0 to 2 |
| `Rasterer.BoxIndicesOrdered` | src/main/java/Rasterer.java:78-84 | all four indices lie in `[0, 2^d)`. `ullat >= lrlat` alone gives `topY <= bottomY`, and `ullon <= lrlon` alone gives `leftX <= rightX` |
| `Rasterer.TopY` | src/main/java/Rasterer.java:119-135 | the downward row scan returns an index in `[0, 2^d)` equal to the closed-form top row |
| `Rasterer.BottomY` | src/main/java/Rasterer.java:137-153 | the upward row scan returns an index in `[0, 2^d)` equal to the closed-form bottom row |
| `Rasterer.LeftX` | src/main/java/Rasterer.java:155-171 | the rightward column scan returns an index in `[0, 2^d)` equal to the closed-form left column |
| `Rasterer.RightX` | src/main/java/Rasterer.java:173-189 | the leftward column scan returns an index in `[0, 2^d)` equal to the closed-form right column |
| `Rasterer.FillGrid` | src/main/java/Rasterer.java:84-96 | the grid has `bottomY - topY + 1` rows and `rightX - leftX + 1` columns. Cell `[i, j]` is the name of tile `(d, leftX + j, topY + i)`. The grid is a newly allocated array |
| `Rasterer.RenderGridNamesDistinct` | src/main/java/Rasterer.java:89 | distinct cells of the grid hold distinct tile names |
| `TileNames.Decimal` | src/main/java/Rasterer.java:89 | the decimal form of a number is non-empty, all digits and, for a positive number, has no leading zero; `DecimalRoundTrip` reads it back |
| `TileNames.TileName` | src/main/java/Rasterer.java:89 | a tile's name is at least 12 characters, starts with `d` and ends with `.png`; `ParseTileNameRoundTrip` recovers the tile from it |
| `TileNames.DecimalRoundTrip` | src/main/java/Rasterer.java:89 | the decimal digits written into a name read back as the same number |
| `TileNames.ParseTileNameRoundTrip` | src/main/java/Rasterer.java:89 | parsing a tile name recovers its `(depth, x, y)` |
| `TileNames.TileNameInjective` | src/main/java/Rasterer.java:89 | two tiles with the same name are the same tile |
| `Rasterer.RasterExtent` | src/main/java/Rasterer.java:99-105 | the four extent values are the left edge of `leftX`, the right edge of `rightX`, the top edge of `topY` and the bottom edge of `bottomY` |
| `Rasterer.LonExtentWithinRoot` | src/main/java/Rasterer.java:101-103 | the extent's longitudes lie within the root, and its width is the column count times the tile span |
| `Rasterer.LatExtentWithinRoot` | src/main/java/Rasterer.java:104-105 | the extent's latitudes lie within the root, and its height is the row count times the tile span |
| `Rasterer.ExtentCoversQuery` | src/main/java/Rasterer.java:22-23 | the grid's extent covers the query box, clipped to the root, on all four sides |
| `Rasterer.RootQueryIsOneTile` | src/main/java/Rasterer.java:39-116 | a query equal to the root at 256 pixels is accepted and gets depth 0 and the single tile `(0, 0, 0)` |
| `Rasterer.GetMapRaster` | src/main/java/Rasterer.java:30-117 | the result is queryFailed exactly for rejected boxes. An inverted box whose grid would have a negative dimension gets NegativeArraySize. Any other box gets the coarsest depth, the grid of the four scan indices and the extent of that grid, marked successful. A returned grid is a newly allocated array |
| `Rasterer.OrderedAxisRenders` | src/main/java/Rasterer.java:84 | at the chosen depth, a box not inverted in latitude gets at least one row and a box not inverted in longitude at least one column, so a box inverted on neither axis never sees a negative allocation size |

## Left out

- The console message at src/main/java/Rasterer.java:31-32: it is output only.
- IEEE-754 doubles and `Math.pow`: coordinates are exact reals and `2^d` is an exact integer. Band edges that drift in floating point as the scans accumulate them are not modelled. In the model the accumulated edges equal the closed-form ones exactly.
- `MapServer`, `RasterRequestParams`, `RasterResultParams` and its `Builder` are not part of this model. The root constants become the `root` parameter. The request keeps only the fields `getMapRaster` reads. The builder calls become one datatype constructor.
- The unused parameter of each scan is dropped: `lrlat` of `topY`, `ullat` of `bottomY`, `lrlon` of `leftX`, `ullon` of `rightX`. The unused `Raster` import is dropped too.
- The early `break` at src/main/java/Rasterer.java:93-95 is left out. It fires only after the last row, when the loop ends anyway.
- Java's string formatting of integers is replaced by a decimal function on naturals. Every number in a name is a depth or an index in `[0, 2^d)`.
- Java `int` overflow is not modelled. Indices stay below `2^7`.
- src/main/java/MapNode.java is not part of this model. It is a routing-graph vertex record with no part in rastering.
