/** Rasterer.getMapRaster: turns a query box and a viewport width into the
    grid of tile images that covers the box at the coarsest depth that is
    sharp enough, together with the exact box that grid covers. */
module Rasterer {
  import opened Pyramid
  import opened TileNames

  /** RasterRequestParams: the query box and the viewport width in pixels. */
  datatype RasterRequest = RasterRequest(ullon: real, ullat: real, lrlon: real, lrlat: real, w: real)

  /** RasterResultParams: a failed query, or the grid with its depth, the box
      it covers and the success flag. */
  datatype RasterResult =
    | QueryFailed
    | Raster(renderGrid: array2<string>, depth: nat,
             rasterUlLon: real, rasterUlLat: real, rasterLrLon: real, rasterLrLat: real,
             querySuccess: bool)

  /** What a call of getMapRaster ends with: a result, or the
      NegativeArraySizeException thrown when the grid would have a negative
      dimension (an inverted query box). */
  datatype Response = Returned(result: RasterResult) | NegativeArraySize

  // ---------------------------------------------------------------------
  // Rejection

  /** The query box reaches the closed root box on every side. */
  predicate Overlaps(root: Root, q: RasterRequest) {
    root.lrlat <= q.ullat && q.lrlat <= root.ullat && q.ullon <= root.lrlon && root.ullon <= q.lrlon
  }

  /** The query box sticks out past the root on all four sides. */
  predicate ContainsRootStrictly(root: Root, q: RasterRequest) {
    q.ullat > root.ullat && q.lrlat < root.lrlat && q.ullon < root.ullon && q.lrlon > root.lrlon
  }

  /** The five checks of getMapRaster as written, in source order: the box
      lies wholly above or below the root, wholly left or right of it, sticks
      out past it on all four sides, or has a corner beyond the root's far
      latitude or longitude. */
  predicate FailsAQueryCheck(root: Root, q: RasterRequest) {
    (q.ullat > root.ullat && q.lrlat > root.ullat) || (q.lrlat < root.lrlat && q.ullat < root.lrlat)
    || (q.ullon < root.ullon && q.lrlon < root.ullon) || (q.lrlon > root.lrlon && q.ullon > root.lrlon)
    || ContainsRootStrictly(root, q)
    || q.ullat < root.lrlat || q.lrlat > root.ullat
    || q.ullon > root.lrlon || q.lrlon < root.ullon
  }

  /** The queries getMapRaster answers with queryFailed: the first two checks
      are implied by the last two, so rejection is strict containment of the
      root or a miss of the closed root box. */
  function Rejected(root: Root, q: RasterRequest): (rejected: bool)
    ensures rejected <==> FailsAQueryCheck(root, q)
  {
    ContainsRootStrictly(root, q) || !Overlaps(root, q)
  }

  // ---------------------------------------------------------------------
  // Depth selection

  /** Longitude distance per pixel of a box of the given pixel width. */
  function LonDPP(lrlon: real, ullon: real, width: real): (dpp: real)
    requires width != 0.0
    ensures dpp * width == lrlon - ullon
  {
    (lrlon - ullon) / width
  }

  /** LonDPP of one tile image at depth i, measured as the scan does: the
      first tile's box over TILE_SIZE pixels. */
  function TileLonDPP(root: Root, i: nat): (dpp: real)
    requires root.Valid()
    ensures 0.0 < dpp && dpp * TILE_SIZE == LonPerBox(root, i)
  {
    LonDPP(root.ullon + LonPerBox(root, i), root.ullon, TILE_SIZE)
  }

  /** LonDPP the query asks for; it is positive exactly when the box's
      lower-right longitude lies right of its upper-left one. */
  function DesiredLonDPP(q: RasterRequest): (dpp: real)
    requires q.w > 0.0
    ensures dpp * q.w == q.lrlon - q.ullon
    ensures 0.0 < dpp <==> q.ullon < q.lrlon
  {
    ScaleLess(0.0, (q.lrlon - q.ullon) / q.w, q.w);
    LonDPP(q.lrlon, q.ullon, q.w)
  }

  /** d is the least depth whose tiles are at least as sharp as desired, or
      MAX_DEPTH when none in [0, MAX_DEPTH) is. */
  predicate IsCoarsestDepth(root: Root, desired: real, d: nat)
    requires root.Valid()
  {
    d <= MAX_DEPTH
    && (forall i :: 0 <= i < d ==> desired < TileLonDPP(root, i))
    && (d < MAX_DEPTH ==> TileLonDPP(root, d) <= desired)
  }

  lemma CoarsestDepthUnique(root: Root, desired: real, d1: nat, d2: nat)
    requires root.Valid()
    requires IsCoarsestDepth(root, desired, d1) && IsCoarsestDepth(root, desired, d2)
    ensures d1 == d2
  {
  }

  /** The first depth from `from` on that is sharp enough, or MAX_DEPTH. */
  function FirstSharpEnough(root: Root, desired: real, from: nat): (d: nat)
    requires root.Valid() && from <= MAX_DEPTH
    requires forall i :: 0 <= i < from ==> desired < TileLonDPP(root, i)
    ensures from <= d && IsCoarsestDepth(root, desired, d)
    decreases MAX_DEPTH - from
  {
    if from == MAX_DEPTH || TileLonDPP(root, from) <= desired then from
    else FirstSharpEnough(root, desired, from + 1)
  }

  /** The depth getMapRaster picks for a desired LonDPP. */
  function CoarsestDepth(root: Root, desired: real): (d: nat)
    requires root.Valid()
    ensures IsCoarsestDepth(root, desired, d)
  {
    FirstSharpEnough(root, desired, 0)
  }

  /** Deeper tiles are sharper. */
  lemma TileLonDPPAntitone(root: Root, a: nat, b: nat)
    requires root.Valid() && a <= b
    ensures TileLonDPP(root, b) <= TileLonDPP(root, a)
  {
    LonPerBoxAntitone(root, a, b);
    DivMonotone(LonPerBox(root, b), LonPerBox(root, a), TILE_SIZE);
  }

  /** Coarsest: every depth at or below the chosen one (up to MAX_DEPTH) is
      sharp enough, every shallower one is not. */
  lemma CoarsestDepthIsThreshold(root: Root, desired: real, j: nat)
    requires root.Valid() && j <= MAX_DEPTH
    ensures j < CoarsestDepth(root, desired) ==> desired < TileLonDPP(root, j)
    ensures (CoarsestDepth(root, desired) <= j && CoarsestDepth(root, desired) < MAX_DEPTH)
              ==> TileLonDPP(root, j) <= desired
  {
    var d := CoarsestDepth(root, desired);
    if d <= j {
      TileLonDPPAntitone(root, d, j);
    }
  }

  /** Asking for a finer LonDPP never gives a shallower depth. */
  lemma DepthMonotone(root: Root, finer: real, coarser: real)
    requires root.Valid() && finer <= coarser
    ensures CoarsestDepth(root, coarser) <= CoarsestDepth(root, finer)
  {
  }

  /** Every tile has a positive LonDPP, so a desired LonDPP of zero or less
      (a box inverted or empty in longitude) takes the default MAX_DEPTH. */
  lemma NonPositiveDesiredGetsMaxDepth(root: Root, desired: real)
    requires root.Valid() && desired <= 0.0
    ensures CoarsestDepth(root, desired) == MAX_DEPTH
  {
  }

  /** A wider viewport over the same box never gives a shallower depth. */
  lemma DepthGrowsWithViewport(root: Root, q: RasterRequest, w: real)
    requires root.Valid() && q.w > 0.0 && q.w <= w
    ensures CoarsestDepth(root, DesiredLonDPP(q)) <= CoarsestDepth(root, DesiredLonDPP(q.(w := w)))
  {
    var narrow, wide := DesiredLonDPP(q), DesiredLonDPP(q.(w := w));
    if q.lrlon <= q.ullon {
      NonPositiveDesiredGetsMaxDepth(root, wide);
    } else {
      assert narrow * q.w == wide * w;
      if narrow < wide {
        ScaleLess(narrow, wide, q.w);
        ScaleLess(q.w, w, wide);
        assert false;
      }
      DepthMonotone(root, wide, narrow);
    }
  }

  /** A narrower box at the same viewport width never gives a shallower depth. */
  lemma DepthGrowsAsBoxNarrows(root: Root, q: RasterRequest, narrow: RasterRequest)
    requires root.Valid() && q.w > 0.0 && narrow.w == q.w
    requires narrow.lrlon - narrow.ullon <= q.lrlon - q.ullon
    ensures CoarsestDepth(root, DesiredLonDPP(q)) <= CoarsestDepth(root, DesiredLonDPP(narrow))
  {
    DivMonotone(narrow.lrlon - narrow.ullon, q.lrlon - q.ullon, q.w);
    DepthMonotone(root, DesiredLonDPP(narrow), DesiredLonDPP(q));
  }

  /** The depth scan of getMapRaster. The loop bound is the literal 8, not
      MAX_DEPTH + 1; the two agree. */
  method SelectDepth(root: Root, desiredLonDPP: real) returns (d: nat)
    requires root.Valid()
    ensures d == CoarsestDepth(root, desiredLonDPP)
  {
    d := MAX_DEPTH;
    var i := 0;
    while i < 8
      invariant 0 <= i <= 8 && d == MAX_DEPTH
      invariant forall j :: 0 <= j < i ==> desiredLonDPP < TileLonDPP(root, j)
    {
      var numOfBoxes := Pow2(i) as real;
      var lonPerBox := root.LonDelta() / numOfBoxes;
      var boxLrLon := root.ullon + lonPerBox;
      var boxUlLon := root.ullon;
      var boxLonDPP := LonDPP(boxLrLon, boxUlLon, TILE_SIZE);
      if boxLonDPP <= desiredLonDPP {
        d := i;
        break;
      }
      i := i + 1;
    }
    CoarsestDepthUnique(root, desiredLonDPP, d, CoarsestDepth(root, desiredLonDPP));
  }

  // ---------------------------------------------------------------------
  // Index scans and their closed forms

  /** Row of the upper-left latitude; 0 when it lies in no row's interior. */
  function TopIndex(root: Root, d: nat, lat: real): int
    requires root.Valid()
  {
    BandOf(LatOffset(root, d, lat), Pow2(d), 0)
  }

  /** Row of the lower-right latitude; 2^d - 1 when it lies in no row's interior. */
  function BottomIndex(root: Root, d: nat, lat: real): int
    requires root.Valid()
  {
    BandOf(LatOffset(root, d, lat), Pow2(d), Pow2(d) - 1)
  }

  /** Column of the upper-left longitude; 0 when it lies in no column's interior. */
  function LeftIndex(root: Root, d: nat, lon: real): int
    requires root.Valid()
  {
    BandOf(LonOffset(root, d, lon), Pow2(d), 0)
  }

  /** Column of the lower-right longitude; 2^d - 1 when it lies in no column's interior. */
  function RightIndex(root: Root, d: nat, lon: real): int
    requires root.Valid()
  {
    BandOf(LonOffset(root, d, lon), Pow2(d), Pow2(d) - 1)
  }

  /** A latitude strictly inside row i gets row i from both latitude scans:
      rows are disjoint, so the first row found is the only one. */
  lemma LatBandIndex(root: Root, d: nat, i: int, lat: real)
    requires root.Valid() && 0 <= i < Pow2(d) && InLatBand(root, d, i, lat)
    ensures TopIndex(root, d, lat) == i && BottomIndex(root, d, lat) == i
  {
    InLatBandIff(root, d, i, lat);
    BandOfInUnit(LatOffset(root, d, lat), Pow2(d), 0, i);
    BandOfInUnit(LatOffset(root, d, lat), Pow2(d), Pow2(d) - 1, i);
  }

  /** A longitude strictly inside column i gets column i from both longitude scans. */
  lemma LonBandIndex(root: Root, d: nat, i: int, lon: real)
    requires root.Valid() && 0 <= i < Pow2(d) && InLonBand(root, d, i, lon)
    ensures LeftIndex(root, d, lon) == i && RightIndex(root, d, lon) == i
  {
    InLonBandIff(root, d, i, lon);
    BandOfInUnit(LonOffset(root, d, lon), Pow2(d), 0, i);
    BandOfInUnit(LonOffset(root, d, lon), Pow2(d), Pow2(d) - 1, i);
  }

  /** A latitude in no row's interior gets the fallbacks: 0 on top, 2^d - 1 at the bottom. */
  lemma NoLatBandFallback(root: Root, d: nat, lat: real)
    requires root.Valid()
    requires forall j :: 0 <= j < Pow2(d) ==> !InLatBand(root, d, j, lat)
    ensures TopIndex(root, d, lat) == 0 && BottomIndex(root, d, lat) == Pow2(d) - 1
  {
    var t := LatOffset(root, d, lat);
    var k := t.Floor;
    if 0 <= k < Pow2(d) && InUnit(t, k) {
      InLatBandIff(root, d, k, lat);
      assert false;
    }
    UnitHoldsFloor(t);
  }

  /** A longitude in no column's interior gets the fallbacks: 0 on the left,
      2^d - 1 on the right. */
  lemma NoLonBandFallback(root: Root, d: nat, lon: real)
    requires root.Valid()
    requires forall j :: 0 <= j < Pow2(d) ==> !InLonBand(root, d, j, lon)
    ensures LeftIndex(root, d, lon) == 0 && RightIndex(root, d, lon) == Pow2(d) - 1
  {
    var t := LonOffset(root, d, lon);
    var k := t.Floor;
    if 0 <= k < Pow2(d) && InUnit(t, k) {
      InLonBandIff(root, d, k, lon);
      assert false;
    }
    UnitHoldsFloor(t);
  }

  /** A latitude exactly on a row edge, or not strictly inside the root, is
      in no row's interior (and so gets the fallbacks). */
  lemma EdgeOrOutsideLatHasNoBand(root: Root, d: nat, lat: real, k: int)
    requires root.Valid()
    requires lat == LatEdge(root, d, k) || lat >= root.ullat || lat <= root.lrlat
    ensures forall j :: 0 <= j < Pow2(d) ==> !InLatBand(root, d, j, lat)
  {
    OuterEdges(root, d);
    forall j | 0 <= j < Pow2(d)
      ensures !InLatBand(root, d, j, lat)
    {
      EdgesStrictlyMonotone(root, d, 0, j);
      EdgesStrictlyMonotone(root, d, j + 1, Pow2(d));
      EdgesStrictlyMonotone(root, d, k, j);
      EdgesStrictlyMonotone(root, d, j + 1, k);
    }
  }

  /** A longitude exactly on a column edge, or not strictly inside the root,
      is in no column's interior (and so gets the fallbacks). */
  lemma EdgeOrOutsideLonHasNoBand(root: Root, d: nat, lon: real, k: int)
    requires root.Valid()
    requires lon == LonEdge(root, d, k) || lon <= root.ullon || lon >= root.lrlon
    ensures forall j :: 0 <= j < Pow2(d) ==> !InLonBand(root, d, j, lon)
  {
    OuterEdges(root, d);
    forall j | 0 <= j < Pow2(d)
      ensures !InLonBand(root, d, j, lon)
    {
      EdgesStrictlyMonotone(root, d, 0, j);
      EdgesStrictlyMonotone(root, d, j + 1, Pow2(d));
      EdgesStrictlyMonotone(root, d, k, j);
      EdgesStrictlyMonotone(root, d, j + 1, k);
    }
  }

  /** The strict band tests at work: at depth 2, a box that starts exactly
      on the edge of column 2 and is half a column wide gets columns 0..2,
      not just column 2. */
  lemma EdgeAlignedBoxGetsColumnsFromZero(root: Root)
    requires root.Valid()
    ensures var ullon := LonEdge(root, 2, 2);
      LeftIndex(root, 2, ullon) == 0
      && RightIndex(root, 2, ullon + LonPerBox(root, 2) / 2.0) == 2
  {
    var ullon := LonEdge(root, 2, 2);
    EdgeOrOutsideLonHasNoBand(root, 2, ullon, 2);
    NoLonBandFallback(root, 2, ullon);
    EdgeStep(root, 2, 2);
    LonBandIndex(root, 2, 2, ullon + LonPerBox(root, 2) / 2.0);
  }

  /** An inverted box can also get an empty grid marked successful. Over the
      root's full longitudes, at any viewport width whose depth d is at least
      1, the box whose upper latitude lies in row 1 and whose lower latitude
      lies in row 0 is accepted and gets topY = 1 and bottomY = 0: a grid of
      no rows, with no exception. */
  lemma InvertedBoxGetsEmptyGrid(root: Root, w: real)
    requires root.Valid() && w > 0.0
    requires 1 <= CoarsestDepth(root, LonDPP(root.lrlon, root.ullon, w))
    ensures var d := CoarsestDepth(root, LonDPP(root.lrlon, root.ullon, w));
      var h := LatPerBox(root, d);
      var q := RasterRequest(root.ullon, root.ullat - 1.5 * h, root.lrlon, root.ullat - 0.5 * h, w);
      && !Rejected(root, q) && CoarsestDepth(root, DesiredLonDPP(q)) == d
      && TopIndex(root, d, q.ullat) == 1 && BottomIndex(root, d, q.lrlat) == 0
      && BottomIndex(root, d, q.lrlat) - TopIndex(root, d, q.ullat) + 1 == 0
  {
    var d := CoarsestDepth(root, LonDPP(root.lrlon, root.ullon, w));
    var h := LatPerBox(root, d);
    var q := RasterRequest(root.ullon, root.ullat - 1.5 * h, root.lrlon, root.ullat - 0.5 * h, w);
    assert 2 <= Pow2(d) by {
      Pow2Monotone(1, d);
      assert Pow2(1) == 2;
    }
    assert root.lrlat <= LatEdge(root, d, 2) by {
      OuterEdges(root, d);
      EdgesStrictlyMonotone(root, d, 2, Pow2(d));
    }
    assert DesiredLonDPP(q) == LonDPP(root.lrlon, root.ullon, w);
    assert InLatBand(root, d, 1, q.ullat) && InLatBand(root, d, 0, q.lrlat);
    LatBandIndex(root, d, 1, q.ullat);
    LatBandIndex(root, d, 0, q.lrlat);
  }

  /** All four indices lie in [0, 2^d). A box not inverted in latitude gets
      a top row no lower than its bottom row, and a box not inverted in
      longitude gets a left column no further right than its right column;
      each axis on its own. */
  lemma BoxIndicesOrdered(root: Root, d: nat, q: RasterRequest)
    requires root.Valid()
    ensures 0 <= TopIndex(root, d, q.ullat) < Pow2(d) && 0 <= BottomIndex(root, d, q.lrlat) < Pow2(d)
    ensures 0 <= LeftIndex(root, d, q.ullon) < Pow2(d) && 0 <= RightIndex(root, d, q.lrlon) < Pow2(d)
    ensures q.lrlat <= q.ullat ==> TopIndex(root, d, q.ullat) <= BottomIndex(root, d, q.lrlat)
    ensures q.ullon <= q.lrlon ==> LeftIndex(root, d, q.ullon) <= RightIndex(root, d, q.lrlon)
  {
    if q.lrlat <= q.ullat {
      OffsetsMonotone(root, d, q.lrlat, q.ullat);
      BandOfOrdered(LatOffset(root, d, q.ullat), LatOffset(root, d, q.lrlat), Pow2(d));
    }
    if q.ullon <= q.lrlon {
      OffsetsMonotone(root, d, q.ullon, q.lrlon);
      BandOfOrdered(LonOffset(root, d, q.ullon), LonOffset(root, d, q.lrlon), Pow2(d));
    }
  }

  /** topY: slides a row's edges down from the root's top edge. */
  method TopY(root: Root, ullat: real, d: nat) returns (y: int)
    requires root.Valid()
    ensures 0 <= y < Pow2(d)
    ensures y == TopIndex(root, d, ullat)
  {
    var numOfBoxes := Pow2(d);
    var latPerBox := root.LatDelta() / (numOfBoxes as real);
    var ulLat := root.ullat;
    var lrLat := root.ullat - latPerBox;
    var i := 0;
    while i < numOfBoxes
      invariant 0 <= i <= numOfBoxes
      invariant ulLat == LatEdge(root, d, i) && lrLat == LatEdge(root, d, i + 1)
      invariant forall j :: 0 <= j < i ==> !InLatBand(root, d, j, ullat)
    {
      if ullat < ulLat && ullat > lrLat {
        LatBandIndex(root, d, i, ullat);
        return i;
      }
      EdgeStep(root, d, i + 1);
      ulLat, lrLat := lrLat, lrLat - latPerBox;
      i := i + 1;
    }
    NoLatBandFallback(root, d, ullat);
    return 0;
  }

  /** bottomY: slides a row's edges up from the root's bottom edge. */
  method BottomY(root: Root, lrlat: real, d: nat) returns (y: int)
    requires root.Valid()
    ensures 0 <= y < Pow2(d)
    ensures y == BottomIndex(root, d, lrlat)
  {
    var numOfBoxes := Pow2(d);
    var latPerBox := root.LatDelta() / (numOfBoxes as real);
    OuterEdges(root, d);
    EdgeStep(root, d, numOfBoxes - 1);
    var ulLat := root.lrlat + latPerBox;
    var lrLat := root.lrlat;
    var i: int := numOfBoxes - 1;
    while i >= 0
      invariant -1 <= i < numOfBoxes
      invariant ulLat == LatEdge(root, d, i) && lrLat == LatEdge(root, d, i + 1)
      invariant forall j :: i < j < numOfBoxes ==> !InLatBand(root, d, j, lrlat)
    {
      if lrlat < ulLat && lrlat > lrLat {
        LatBandIndex(root, d, i, lrlat);
        return i;
      }
      EdgeStep(root, d, i - 1);
      lrLat, ulLat := ulLat, ulLat + latPerBox;
      i := i - 1;
    }
    NoLatBandFallback(root, d, lrlat);
    return numOfBoxes - 1;
  }

  /** leftX: slides a column's edges right from the root's left edge. */
  method LeftX(root: Root, ullon: real, d: nat) returns (x: int)
    requires root.Valid()
    ensures 0 <= x < Pow2(d)
    ensures x == LeftIndex(root, d, ullon)
  {
    var numOfBoxes := Pow2(d);
    var lonPerBox := root.LonDelta() / (numOfBoxes as real);
    var ulLon := root.ullon;
    var lrLon := root.ullon + lonPerBox;
    var i := 0;
    while i < numOfBoxes
      invariant 0 <= i <= numOfBoxes
      invariant ulLon == LonEdge(root, d, i) && lrLon == LonEdge(root, d, i + 1)
      invariant forall j :: 0 <= j < i ==> !InLonBand(root, d, j, ullon)
    {
      if ullon > ulLon && ullon < lrLon {
        LonBandIndex(root, d, i, ullon);
        return i;
      }
      EdgeStep(root, d, i + 1);
      ulLon, lrLon := lrLon, lrLon + lonPerBox;
      i := i + 1;
    }
    NoLonBandFallback(root, d, ullon);
    return 0;
  }

  /** rightX: slides a column's edges left from the root's right edge. */
  method RightX(root: Root, lrlon: real, d: nat) returns (x: int)
    requires root.Valid()
    ensures 0 <= x < Pow2(d)
    ensures x == RightIndex(root, d, lrlon)
  {
    var numOfBoxes := Pow2(d);
    var lonPerBox := root.LonDelta() / (numOfBoxes as real);
    OuterEdges(root, d);
    EdgeStep(root, d, numOfBoxes - 1);
    var ulLon := root.lrlon - lonPerBox;
    var lrLon := root.lrlon;
    var i: int := numOfBoxes - 1;
    while i >= 0
      invariant -1 <= i < numOfBoxes
      invariant ulLon == LonEdge(root, d, i) && lrLon == LonEdge(root, d, i + 1)
      invariant forall j :: i < j < numOfBoxes ==> !InLonBand(root, d, j, lrlon)
    {
      if lrlon > ulLon && lrlon < lrLon {
        LonBandIndex(root, d, i, lrlon);
        return i;
      }
      EdgeStep(root, d, i - 1);
      lrLon, ulLon := ulLon, ulLon - lonPerBox;
      i := i - 1;
    }
    NoLonBandFallback(root, d, lrlon);
    return numOfBoxes - 1;
  }

  // ---------------------------------------------------------------------
  // Grid and extent

  /** grid is the row-major grid of tile names for rows top..bottom and
      columns left..right at depth d. */
  ghost predicate IsRenderGrid(grid: array2<string>, d: nat, top: nat, bottom: int, left: nat, right: int)
    reads grid
  {
    grid.Length0 == bottom - top + 1 && grid.Length1 == right - left + 1
    && forall i, j :: 0 <= i < grid.Length0 && 0 <= j < grid.Length1
         ==> grid[i, j] == TileName(TileId(d, left + j, top + i))
  }

  /** Fills the grid row by row, top to bottom, each row left to right. */
  method FillGrid(d: nat, topY: nat, bottomY: int, leftX: nat, rightX: int) returns (renderGrid: array2<string>)
    requires topY <= bottomY + 1 && leftX <= rightX + 1
    ensures fresh(renderGrid)
    ensures IsRenderGrid(renderGrid, d, topY, bottomY, leftX, rightX)
  {
    renderGrid := new string[bottomY - topY + 1, rightX - leftX + 1];
    var outerIndex := 0;
    var j := topY;
    while j <= bottomY
      invariant topY <= j <= bottomY + 1 && outerIndex == j - topY
      invariant forall a, b :: 0 <= a < outerIndex && 0 <= b < renderGrid.Length1
                  ==> renderGrid[a, b] == TileName(TileId(d, leftX + b, topY + a))
    {
      var index := 0;
      var k := leftX;
      while k <= rightX
        invariant leftX <= k <= rightX + 1 && index == k - leftX
        invariant forall a, b :: 0 <= a < outerIndex && 0 <= b < renderGrid.Length1
                    ==> renderGrid[a, b] == TileName(TileId(d, leftX + b, topY + a))
        invariant forall b :: 0 <= b < index ==> renderGrid[outerIndex, b] == TileName(TileId(d, leftX + b, j))
      {
        renderGrid[outerIndex, index] := TileName(TileId(d, k, j));
        index := index + 1;
        k := k + 1;
      }
      outerIndex := outerIndex + 1;
      j := j + 1;
    }
  }

  /** Distinct cells of a render grid name distinct tiles. */
  lemma RenderGridNamesDistinct(grid: array2<string>, d: nat, top: nat, bottom: int, left: nat, right: int,
                                i1: int, j1: int, i2: int, j2: int)
    requires IsRenderGrid(grid, d, top, bottom, left, right)
    requires 0 <= i1 < grid.Length0 && 0 <= j1 < grid.Length1
    requires 0 <= i2 < grid.Length0 && 0 <= j2 < grid.Length1
    requires i1 != i2 || j1 != j2
    ensures grid[i1, j1] != grid[i2, j2]
  {
    if grid[i1, j1] == grid[i2, j2] {
      TileNameInjective(TileId(d, left + j1, top + i1), TileId(d, left + j2, top + i2));
    }
  }

  /** The extent of the columns left..right lies inside the root's
      longitudes and is one tile span wide per column. */
  lemma LonExtentWithinRoot(root: Root, d: nat, left: int, right: int)
    requires root.Valid() && 0 <= left <= right + 1 <= Pow2(d)
    ensures root.ullon <= LonEdge(root, d, left) <= LonEdge(root, d, right + 1) <= root.lrlon
    ensures LonEdge(root, d, right + 1) - LonEdge(root, d, left) == ((right - left + 1) as real) * LonPerBox(root, d)
  {
    OuterEdges(root, d);
    EdgesStrictlyMonotone(root, d, 0, left);
    EdgesStrictlyMonotone(root, d, left, right + 1);
    EdgesStrictlyMonotone(root, d, right + 1, Pow2(d));
  }

  /** The extent of the rows top..bottom lies inside the root's latitudes and
      is one tile span high per row. */
  lemma LatExtentWithinRoot(root: Root, d: nat, top: int, bottom: int)
    requires root.Valid() && 0 <= top <= bottom + 1 <= Pow2(d)
    ensures root.lrlat <= LatEdge(root, d, bottom + 1) <= LatEdge(root, d, top) <= root.ullat
    ensures LatEdge(root, d, top) - LatEdge(root, d, bottom + 1) == ((bottom - top + 1) as real) * LatPerBox(root, d)
  {
    OuterEdges(root, d);
    EdgesStrictlyMonotone(root, d, 0, top);
    EdgesStrictlyMonotone(root, d, top, bottom + 1);
    EdgesStrictlyMonotone(root, d, bottom + 1, Pow2(d));
  }

  /** The grid's extent covers the query box as far as the root reaches. */
  lemma ExtentCoversQuery(root: Root, d: nat, q: RasterRequest)
    requires root.Valid()
    ensures LonEdge(root, d, LeftIndex(root, d, q.ullon)) <= if q.ullon < root.ullon then root.ullon else q.ullon
    ensures LonEdge(root, d, RightIndex(root, d, q.lrlon) + 1) >= if q.lrlon > root.lrlon then root.lrlon else q.lrlon
    ensures LatEdge(root, d, TopIndex(root, d, q.ullat)) >= if q.ullat > root.ullat then root.ullat else q.ullat
    ensures LatEdge(root, d, BottomIndex(root, d, q.lrlat) + 1) <= if q.lrlat < root.lrlat then root.lrlat else q.lrlat
  {
    OuterEdges(root, d);
    var n := Pow2(d);
    var left, right := LeftIndex(root, d, q.ullon), RightIndex(root, d, q.lrlon);
    var top, bottom := TopIndex(root, d, q.ullat), BottomIndex(root, d, q.lrlat);
    InLonBandIff(root, d, left, q.ullon);
    InLonBandIff(root, d, right, q.lrlon);
    InLatBandIff(root, d, top, q.ullat);
    InLatBandIff(root, d, bottom, q.lrlat);
  }

  /** The query box equal to the root at the tiles' own resolution gets the
      single depth-0 tile, covering exactly the root. */
  lemma RootQueryIsOneTile(root: Root)
    requires root.Valid()
    ensures var q := RasterRequest(root.ullon, root.ullat, root.lrlon, root.lrlat, TILE_SIZE);
      && !Rejected(root, q)
      && CoarsestDepth(root, DesiredLonDPP(q)) == 0
      && TopIndex(root, 0, q.ullat) == 0 && BottomIndex(root, 0, q.lrlat) == 0
      && LeftIndex(root, 0, q.ullon) == 0 && RightIndex(root, 0, q.lrlon) == 0
  {
    var q := RasterRequest(root.ullon, root.ullat, root.lrlon, root.lrlat, TILE_SIZE);
    assert TileLonDPP(root, 0) <= DesiredLonDPP(q);
    EdgeOrOutsideLatHasNoBand(root, 0, q.ullat, 0);
    NoLatBandFallback(root, 0, q.ullat);
    EdgeOrOutsideLatHasNoBand(root, 0, q.lrlat, 1);
    NoLatBandFallback(root, 0, q.lrlat);
    EdgeOrOutsideLonHasNoBand(root, 0, q.ullon, 0);
    NoLonBandFallback(root, 0, q.ullon);
    EdgeOrOutsideLonHasNoBand(root, 0, q.lrlon, 1);
    NoLonBandFallback(root, 0, q.lrlon);
  }

  /** The box covered by rows top..bottom and columns left..right, computed
      as getMapRaster does from the tile spans at depth d. */
  method RasterExtent(root: Root, d: nat, topY: int, bottomY: int, leftX: int, rightX: int)
    returns (rasterUlLon: real, rasterUlLat: real, rasterLrLon: real, rasterLrLat: real)
    requires root.Valid()
    ensures rasterUlLon == LonEdge(root, d, leftX) && rasterLrLon == LonEdge(root, d, rightX + 1)
    ensures rasterUlLat == LatEdge(root, d, topY) && rasterLrLat == LatEdge(root, d, bottomY + 1)
  {
    var numOfBoxes := Pow2(d) as real;
    var latPerBox := root.LatDelta() / numOfBoxes;
    var lonPerBox := root.LonDelta() / numOfBoxes;
    assert latPerBox == LatPerBox(root, d) && lonPerBox == LonPerBox(root, d);
    rasterUlLon := root.ullon + (leftX as real) * lonPerBox;
    rasterLrLon := root.ullon + ((rightX + 1) as real) * lonPerBox;
    rasterUlLat := root.ullat - (topY as real) * latPerBox;
    rasterLrLat := root.ullat - ((bottomY + 1) as real) * latPerBox;
  }

  // ---------------------------------------------------------------------
  // getMapRaster

  /** The result for an accepted query at depth d with the given indices. */
  ghost predicate IsRaster(root: Root, r: RasterResult, d: nat, top: nat, bottom: int, left: nat, right: int)
    requires root.Valid()
    reads if r.Raster? then {r.renderGrid} else {}
  {
    r.Raster? && r.depth == d && r.querySuccess
    && IsRenderGrid(r.renderGrid, d, top, bottom, left, right)
    && r.rasterUlLon == LonEdge(root, d, left) && r.rasterLrLon == LonEdge(root, d, right + 1)
    && r.rasterUlLat == LatEdge(root, d, top) && r.rasterLrLat == LatEdge(root, d, bottom + 1)
  }

  method GetMapRaster(root: Root, params: RasterRequest) returns (r: Response)
    requires root.Valid() && params.w > 0.0
    ensures r == Returned(QueryFailed) <==> Rejected(root, params)
    ensures !Rejected(root, params) ==>
      var d := CoarsestDepth(root, DesiredLonDPP(params));
      var top, bottom := TopIndex(root, d, params.ullat), BottomIndex(root, d, params.lrlat);
      var left, right := LeftIndex(root, d, params.ullon), RightIndex(root, d, params.lrlon);
      if bottom - top + 1 < 0 || right - left + 1 < 0 then r == NegativeArraySize
      else r.Returned? && 0 <= top && 0 <= left && IsRaster(root, r.result, d, top, bottom, left, right)
    ensures r.Returned? && r.result.Raster? ==> fresh(r.result.renderGrid)
  {
    // Query above or below the root's latitudes.
    if (params.ullat > root.ullat && params.lrlat > root.ullat)
       || (params.lrlat < root.lrlat && params.ullat < root.lrlat) {
      return Returned(QueryFailed);
    }
    // Query left or right of the root's longitudes.
    if (params.ullon < root.ullon && params.lrlon < root.ullon)
       || (params.lrlon > root.lrlon && params.ullon > root.lrlon) {
      return Returned(QueryFailed);
    }
    // Query bigger than the root.
    if params.ullat > root.ullat && params.lrlat < root.lrlat
       && params.ullon < root.ullon && params.lrlon > root.lrlon {
      return Returned(QueryFailed);
    }
    if params.ullat < root.lrlat || params.lrlat > root.ullat {
      return Returned(QueryFailed);
    }
    if params.ullon > root.lrlon || params.lrlon < root.ullon {
      return Returned(QueryFailed);
    }

    assert !Rejected(root, params);

    var desiredLonDPP := LonDPP(params.lrlon, params.ullon, params.w);
    var d := SelectDepth(root, desiredLonDPP);

    var topY := TopY(root, params.ullat, d);
    var bottomY := BottomY(root, params.lrlat, d);
    var leftX := LeftX(root, params.ullon, d);
    var rightX := RightX(root, params.lrlon, d);

    if bottomY - topY + 1 < 0 || rightX - leftX + 1 < 0 {
      return NegativeArraySize;
    }
    var renderGrid := FillGrid(d, topY, bottomY, leftX, rightX);

    var rasterUlLon, rasterUlLat, rasterLrLon, rasterLrLat := RasterExtent(root, d, topY, bottomY, leftX, rightX);
    return Returned(Raster(renderGrid, d, rasterUlLon, rasterUlLat, rasterLrLon, rasterLrLat, true));
  }

  /** An axis on which the query box is not inverted gives the grid at least
      one row (one column) at the depth getMapRaster picks; a box inverted on
      neither axis therefore never meets the exception. */
  lemma OrderedAxisRenders(root: Root, q: RasterRequest)
    requires root.Valid() && q.w > 0.0
    ensures var d := CoarsestDepth(root, DesiredLonDPP(q));
      q.lrlat <= q.ullat ==> 1 <= BottomIndex(root, d, q.lrlat) - TopIndex(root, d, q.ullat) + 1
    ensures var d := CoarsestDepth(root, DesiredLonDPP(q));
      q.ullon <= q.lrlon ==> 1 <= RightIndex(root, d, q.lrlon) - LeftIndex(root, d, q.ullon) + 1
  {
    BoxIndicesOrdered(root, CoarsestDepth(root, DesiredLonDPP(q)), q);
  }
}
