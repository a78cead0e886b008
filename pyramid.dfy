/** The tile pyramid: a root box cut, at depth d, into 2^d equal columns and
    2^d equal rows. Nothing is stored; every edge and band is closed-form
    arithmetic over the root box, the depth and an index. */
module Pyramid {

  /** Upper bound of the depth scan's default (Rasterer.MAX_DEPTH). */
  const MAX_DEPTH: nat := 7

  /** Pixel width of one tile image, used to measure a tile's LonDPP. */
  const TILE_SIZE: real := 256.0

  /** The root box of the map server: upper-left and lower-right corners.
      Longitude grows to the right, latitude grows upwards. */
  datatype Root = Root(ullon: real, ullat: real, lrlon: real, lrlat: real) {
    /** ROOT_LON_DELTA > 0 and ROOT_LAT_DELTA > 0. */
    predicate Valid() {
      ullon < lrlon && lrlat < ullat
    }

    function LonDelta(): real { lrlon - ullon }

    function LatDelta(): real { ullat - lrlat }
  }

  /** Number of columns (and of rows) at depth d. */
  function Pow2(d: nat): (n: nat)
    ensures 1 <= n
  {
    if d == 0 then 1 else 2 * Pow2(d - 1)
  }

  lemma {:induction false} Pow2Monotone(a: nat, b: nat)
    requires a <= b
    ensures Pow2(a) <= Pow2(b)
    decreases b
  {
    if a < b {
      Pow2Monotone(a, b - 1);
    }
  }

  /** Longitude span of one tile at depth d. */
  function LonPerBox(root: Root, d: nat): (h: real)
    requires root.Valid()
    ensures 0.0 < h
    ensures h * (Pow2(d) as real) == root.LonDelta()
  {
    root.LonDelta() / (Pow2(d) as real)
  }

  /** Latitude span of one tile at depth d. */
  function LatPerBox(root: Root, d: nat): (h: real)
    requires root.Valid()
    ensures 0.0 < h
    ensures h * (Pow2(d) as real) == root.LatDelta()
  {
    root.LatDelta() / (Pow2(d) as real)
  }

  /** Two positive factorisations of one product: the larger second factor
      goes with the smaller first one. */
  lemma FactorAntitone(ha: real, pa: real, hb: real, pb: real)
    requires 0.0 < ha && 0.0 < pa && pa <= pb && 0.0 < hb
    requires ha * pa == hb * pb
    ensures hb <= ha
  {
    if ha < hb {
      ScaleLess(ha, hb, pb);
      ScaleLess(pa, pb, ha);
      assert false;
    }
  }

  /** Deeper tiles are narrower. */
  lemma LonPerBoxAntitone(root: Root, a: nat, b: nat)
    requires root.Valid() && a <= b
    ensures LonPerBox(root, b) <= LonPerBox(root, a)
  {
    Pow2Monotone(a, b);
    FactorAntitone(LonPerBox(root, a), Pow2(a) as real, LonPerBox(root, b), Pow2(b) as real);
  }

  /** Left edge of column k (the right edge of column k - 1). */
  function LonEdge(root: Root, d: nat, k: int): real
    requires root.Valid()
  {
    root.ullon + (k as real) * LonPerBox(root, d)
  }

  /** Top edge of row k (the bottom edge of row k - 1). */
  function LatEdge(root: Root, d: nat, k: int): real
    requires root.Valid()
  {
    root.ullat - (k as real) * LatPerBox(root, d)
  }

  /** The band test the scans apply: strictly between the edges of column i. */
  predicate InLonBand(root: Root, d: nat, i: int, lon: real)
    requires root.Valid()
  {
    LonEdge(root, d, i) < lon < LonEdge(root, d, i + 1)
  }

  /** The band test the scans apply: strictly between the edges of row i. */
  predicate InLatBand(root: Root, d: nat, i: int, lat: real)
    requires root.Valid()
  {
    LatEdge(root, d, i + 1) < lat < LatEdge(root, d, i)
  }

  /** Distance of a longitude from the root's left edge, in tile widths. */
  function LonOffset(root: Root, d: nat, lon: real): real
    requires root.Valid()
  {
    (lon - root.ullon) / LonPerBox(root, d)
  }

  /** Distance of a latitude below the root's top edge, in tile heights. */
  function LatOffset(root: Root, d: nat, lat: real): real
    requires root.Valid()
  {
    (root.ullat - lat) / LatPerBox(root, d)
  }

  /** t lies in the open unit interval (k, k + 1). */
  predicate InUnit(t: real, k: int) {
    (k as real) < t < ((k + 1) as real)
  }

  /** Closed-form band index: the k in [0, n) whose open interval (k, k + 1)
      holds t, or the fallback when t is an integer or outside (0, n). */
  function BandOf(t: real, n: nat, fallback: int): (k: int)
    ensures (0 <= k < n && InUnit(t, k))
         || (k == fallback && forall j :: 0 <= j < n ==> !InUnit(t, j))
  {
    if 0.0 < t < (n as real) && (t.Floor as real) != t then
      t.Floor
    else
      UnitHoldsFloor(t);
      fallback
  }

  /** The only unit interval that can hold t is the one at its floor, and
      only when t is not an integer. */
  lemma UnitHoldsFloor(t: real)
    ensures forall j :: InUnit(t, j) ==> j == t.Floor && (t.Floor as real) != t
  {
    forall j | InUnit(t, j)
      ensures j == t.Floor
    {
      assert (j as real) < t < ((j + 1) as real);
    }
  }

  /** The open intervals are disjoint: a t inside one of them names it. */
  lemma BandOfInUnit(t: real, n: nat, fallback: int, k: int)
    requires 0 <= k < n && InUnit(t, k)
    ensures BandOf(t, n, fallback) == k
  {
    UnitHoldsFloor(t);
  }

  /** A multiple of a positive step compares like its factor. */
  lemma ScaleLess(a: real, b: real, h: real)
    requires 0.0 < h
    ensures a < b <==> a * h < b * h
  {
    if a < b {
      assert (b - a) * h > 0.0;
    } else {
      assert (a - b) * h >= 0.0;
    }
  }

  /** Dividing by a positive step preserves a strict order with a multiple. */
  lemma DivLess(a: real, b: real, h: real)
    requires 0.0 < h
    ensures a < b * h <==> a / h < b
    ensures b * h < a <==> b < a / h
  {
    assert (a / h) * h == a;
    ScaleLess(a / h, b, h);
    ScaleLess(b, a / h, h);
  }

  /** Dividing by a positive step keeps the order. */
  lemma DivMonotone(a: real, b: real, h: real)
    requires 0.0 < h && a <= b
    ensures a / h <= b / h
  {
    assert (a / h) * h == a && (b / h) * h == b;
    ScaleLess(b / h, a / h, h);
  }

  /** Offsets grow eastwards in longitude and southwards in latitude. */
  lemma OffsetsMonotone(root: Root, d: nat, a: real, b: real)
    requires root.Valid() && a <= b
    ensures LonOffset(root, d, a) <= LonOffset(root, d, b)
    ensures LatOffset(root, d, b) <= LatOffset(root, d, a)
  {
    DivMonotone(a - root.ullon, b - root.ullon, LonPerBox(root, d));
    DivMonotone(root.ullat - b, root.ullat - a, LatPerBox(root, d));
  }

  /** A lower point never gets a later band than a higher one, whatever the
      fallbacks: the low fallback is 0 and the high one is n - 1. */
  lemma BandOfOrdered(s: real, t: real, n: nat)
    requires 1 <= n && s <= t
    ensures BandOf(s, n, 0) <= BandOf(t, n, n - 1)
  {
  }

  /** The scans' edge test is the unit-interval test on the offset. */
  lemma InLonBandIff(root: Root, d: nat, i: int, lon: real)
    requires root.Valid()
    ensures InLonBand(root, d, i, lon) <==> InUnit(LonOffset(root, d, lon), i)
  {
    var h := LonPerBox(root, d);
    DivLess(lon - root.ullon, i as real, h);
    DivLess(lon - root.ullon, (i + 1) as real, h);
  }

  /** The scans' edge test is the unit-interval test on the offset. */
  lemma InLatBandIff(root: Root, d: nat, i: int, lat: real)
    requires root.Valid()
    ensures InLatBand(root, d, i, lat) <==> InUnit(LatOffset(root, d, lat), i)
  {
    var h := LatPerBox(root, d);
    DivLess(root.ullat - lat, i as real, h);
    DivLess(root.ullat - lat, (i + 1) as real, h);
  }

  /** Edges move strictly rightwards (downwards) with their index. */
  lemma EdgesStrictlyMonotone(root: Root, d: nat, a: int, b: int)
    requires root.Valid()
    ensures a < b <==> LonEdge(root, d, a) < LonEdge(root, d, b)
    ensures a < b <==> LatEdge(root, d, b) < LatEdge(root, d, a)
  {
    ScaleLess(a as real, b as real, LonPerBox(root, d));
    ScaleLess(a as real, b as real, LatPerBox(root, d));
  }

  /** Edge 0 and edge 2^d are the root's own edges. */
  lemma OuterEdges(root: Root, d: nat)
    requires root.Valid()
    ensures LonEdge(root, d, 0) == root.ullon && LonEdge(root, d, Pow2(d)) == root.lrlon
    ensures LatEdge(root, d, 0) == root.ullat && LatEdge(root, d, Pow2(d)) == root.lrlat
  {
  }

  /** Stepping one index moves an edge by exactly one tile span; this is how
      the scans slide their edge variables. */
  lemma EdgeStep(root: Root, d: nat, k: int)
    requires root.Valid()
    ensures LonEdge(root, d, k + 1) == LonEdge(root, d, k) + LonPerBox(root, d)
    ensures LatEdge(root, d, k + 1) == LatEdge(root, d, k) - LatPerBox(root, d)
  {
  }
}
