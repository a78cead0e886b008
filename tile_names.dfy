/** Tile file names "d<depth>_x<column>_y<row>.png". The name is built from
    the decimal forms of the three indices; parsing it back recovers them, so
    two tiles share a name only when they are the same tile. */
module TileNames {

  datatype Option<T> = None | Some(value: T)

  /** A tile of the pyramid: depth, column (x) and row (y). */
  datatype TileId = TileId(depth: nat, x: nat, y: nat)

  predicate IsDigit(c: char) {
    '0' <= c <= '9'
  }

  predicate AllDigits(s: string) {
    forall k :: 0 <= k < |s| ==> IsDigit(s[k])
  }

  function DigitChar(v: nat): (c: char)
    requires v < 10
    ensures IsDigit(c) && (c as int) - ('0' as int) == v
  {
    (('0' as int) + v) as char
  }

  /** The decimal form of n, most significant digit first, no leading zero. */
  function Decimal(n: nat): (s: string)
    ensures 1 <= |s| && AllDigits(s)
    ensures 1 <= n ==> s[0] != '0'
  {
    if n < 10 then [DigitChar(n)] else Decimal(n / 10) + [DigitChar(n % 10)]
  }

  /** The number a string of decimal digits denotes. */
  function DecimalValue(s: string): nat
    requires AllDigits(s)
  {
    if s == [] then 0
    else DecimalValue(s[..|s| - 1]) * 10 + ((s[|s| - 1] as int) - ('0' as int))
  }

  lemma {:induction false} DecimalRoundTrip(n: nat)
    ensures DecimalValue(Decimal(n)) == n
  {
    if n >= 10 {
      var s := Decimal(n);
      assert s[..|s| - 1] == Decimal(n / 10);
      DecimalRoundTrip(n / 10);
    }
  }

  /** Length of the longest all-digit prefix of s. */
  function DigitRun(s: string): (k: nat)
    ensures k <= |s| && AllDigits(s[..k])
    ensures k < |s| ==> !IsDigit(s[k])
  {
    if s == [] || !IsDigit(s[0]) then 0
    else
      var k := 1 + DigitRun(s[1..]);
      assert s[..k] == [s[0]] + s[1..][..k - 1];
      k
  }

  lemma {:induction false} DigitRunOfDigits(p: string, r: string)
    requires AllDigits(p)
    requires r == [] || !IsDigit(r[0])
    ensures DigitRun(p + r) == |p|
  {
    if p != [] {
      assert (p + r)[1..] == p[1..] + r;
      DigitRunOfDigits(p[1..], r);
    }
  }

  /** Reads a leading decimal number; fails when s does not start with a digit. */
  function ReadNumber(s: string): Option<(nat, string)> {
    var k := DigitRun(s);
    if k == 0 then None else Some((DecimalValue(s[..k]), s[k..]))
  }

  /** A number written in decimal and followed by a non-digit reads back. */
  lemma ReadDecimal(n: nat, r: string)
    requires r == [] || !IsDigit(r[0])
    ensures ReadNumber(Decimal(n) + r) == Some((n, r))
  {
    var s := Decimal(n) + r;
    DigitRunOfDigits(Decimal(n), r);
    assert s[..|Decimal(n)|] == Decimal(n);
    assert s[|Decimal(n)|..] == r;
    DecimalRoundTrip(n);
  }


  /** The file name of a tile (the grid entry for that tile): a "d", the
      depth, "_x", the column, "_y", the row and the ".png" suffix. */
  function TileName(t: TileId): (name: string)
    ensures 12 <= |name| && name[0] == 'd' && name[|name| - 4..] == ".png"
  {
    "d" + Decimal(t.depth) + "_x" + Decimal(t.x) + "_y" + Decimal(t.y) + ".png"
  }

  /** Reads a tag followed by a decimal number. */
  function ReadField(tag: string, s: string): Option<(nat, string)> {
    if |s| < |tag| || s[..|tag|] != tag then None else ReadNumber(s[|tag|..])
  }

  lemma ReadTaggedDecimal(tag: string, n: nat, r: string)
    requires r == [] || !IsDigit(r[0])
    ensures ReadField(tag, tag + Decimal(n) + r) == Some((n, r))
  {
    var s := tag + Decimal(n) + r;
    assert s[..|tag|] == tag;
    assert s[|tag|..] == Decimal(n) + r;
    ReadDecimal(n, r);
  }

  /** Recovers (depth, column, row) from a tile file name. */
  function ParseTileName(s: string): Option<TileId> {
    match ReadField("d", s)
    case None => None
    case Some((d, r1)) =>
      match ReadField("_x", r1)
      case None => None
      case Some((x, r2)) =>
        match ReadField("_y", r2)
        case None => None
        case Some((y, r3)) =>
          if r3 == ".png" then Some(TileId(d, x, y)) else None
  }

  /** Round trip: a tile's name parses back to the tile. */
  lemma ParseTileNameRoundTrip(t: TileId)
    ensures ParseTileName(TileName(t)) == Some(t)
  {
    var r2 := "_y" + Decimal(t.y) + ".png";
    var r1 := "_x" + Decimal(t.x) + r2;
    assert TileName(t) == "d" + Decimal(t.depth) + r1;
    ReadTaggedDecimal("d", t.depth, r1);
    ReadTaggedDecimal("_x", t.x, r2);
    ReadTaggedDecimal("_y", t.y, ".png");
  }

  /** Distinct tiles have distinct names. */
  lemma TileNameInjective(a: TileId, b: TileId)
    requires TileName(a) == TileName(b)
    ensures a == b
  {
    ParseTileNameRoundTrip(a);
    ParseTileNameRoundTrip(b);
  }
}
