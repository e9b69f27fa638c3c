// make_tiles of src/c/xrdp_codec_bench.c: the frame cut into tiles of at most
// 64 by 64 pixels.

module Tiles {
  import opened Grid
  import opened Wrappers

  const SIDE: nat := 64

  datatype Tile = Tile(x: nat, y: nat, cx: nat, cy: nat, quantY: nat, quantCb: nat, quantCr: nat)

  // Tiles along a side of this length.
  function Count(length: nat): nat { (length + 63) / SIDE }

  // The extent of tile i along the side.
  function Extent(length: nat, i: nat): nat
    requires i < Count(length)
  {
    if i == Count(length) - 1 then length - i * SIDE else SIDE
  }

  function TileAt(w: nat, h: nat, x: nat, y: nat): Tile
    requires x < Count(w) && y < Count(h)
  {
    Tile(x * SIDE, y * SIDE, Extent(w, x), Extent(h, y), 0, 0, 0)
  }

  function Total(w: nat, h: nat): nat { Area(Count(h), Count(w)) }

  lemma IndexIsCellOf(w: nat, h: nat, k: nat)
    requires k < Total(w, h)
    ensures Count(w) > 0 && Row(Count(w), k) < Count(h)
    ensures k == Area(Row(Count(w), k), Count(w)) + Column(Count(w), k)
  {
    if Count(w) == 0 {
      AreaIsProduct(Count(h), 0);
    } else {
      IndexIsCell(Count(h), Count(w), k);
    }
  }

  function TileNo(w: nat, h: nat, k: nat): Tile
    requires k < Total(w, h)
  {
    IndexIsCellOf(w, h, k);
    TileAt(w, h, Column(Count(w), k), Row(Count(w), k))
  }

  function Tiling(w: nat, h: nat): (tiles: seq<Tile>)
    ensures |tiles| == Total(w, h)
  {
    seq(Total(w, h), k requires 0 <= k < Total(w, h) => TileNo(w, h, k))
  }

  // The index of the tile in column x of row y.
  function Index(w: nat, x: nat, y: nat): nat { Area(y, Count(w)) + x }

  lemma TileOfTiling(w: nat, h: nat, x: nat, y: nat)
    requires x < Count(w) && y < Count(h)
    ensures Index(w, x, y) < Total(w, h) && Tiling(w, h)[Index(w, x, y)] == TileAt(w, h, x, y)
  {
    PlaceOfIndex(Count(w), Count(h), x, y);
    assert TileNo(w, h, Index(w, x, y)) == TileAt(w, h, x, y);
  }

  lemma PlaceOfIndex(tx: nat, ty: nat, x: nat, y: nat)
    requires x < tx && y < ty
    ensures Area(y, tx) + x < Area(ty, tx) && Row(tx, Area(y, tx) + x) == y && Column(tx, Area(y, tx) + x) == x
  {
    CellIsInside(ty, tx, y, x);
    RowAndColumn(tx, y, x);
  }

  // ----- partition -----

  predicate Covers(t: Tile, px: nat, py: nat) {
    t.x <= px < t.x + t.cx && t.y <= py < t.y + t.cy
  }

  // Along one side: tile i is the one that holds position p exactly when i is
  // p / 64.
  lemma SideIsCut(length: nat, i: nat, p: nat)
    requires i < Count(length) && p < length
    ensures 1 <= Extent(length, i) <= SIDE && i * SIDE + Extent(length, i) <= length
    ensures p / SIDE < Count(length)
    ensures i * SIDE <= p < i * SIDE + Extent(length, i) <==> i == p / SIDE
  {
  }

  // Every tile is 1 to 64 pixels on each side and lies inside the frame.
  lemma TilesFit(w: nat, h: nat, k: nat)
    requires w > 0 && h > 0 && k < Total(w, h)
    ensures var t := Tiling(w, h)[k];
            1 <= t.cx <= 64 && 1 <= t.cy <= 64 && t.x + t.cx <= w && t.y + t.cy <= h
  {
    IndexIsCellOf(w, h, k);
    SideIsCut(w, Column(Count(w), k), 0);
    SideIsCut(h, Row(Count(w), k), 0);
  }

  // Row by row, each tile in full: 64 pixels each way, or what is left of the
  // frame, with quantisation table 0 for all three components.
  lemma TilesInFull(w: nat, h: nat, x: nat, y: nat)
    requires x < (w + 63) / 64 && y < (h + 63) / 64
    ensures |Tiling(w, h)| == (h + 63) / 64 * ((w + 63) / 64)
    ensures y * ((w + 63) / 64) + x < |Tiling(w, h)|
    ensures Tiling(w, h)[y * ((w + 63) / 64) + x]
         == Tile(64 * x, 64 * y, if w - 64 * x < 64 then w - 64 * x else 64, if h - 64 * y < 64 then h - 64 * y else 64, 0, 0, 0)
  {
    TileOfTiling(w, h, x, y);
    AreaIsProduct(y, Count(w));
    AreaIsProduct(Count(h), Count(w));
  }

  // Every pixel of the frame lies in exactly one tile.
  lemma PixelInOneTile(w: nat, h: nat, px: nat, py: nat) returns (k: nat)
    requires px < w && py < h
    ensures k < Total(w, h) && Covers(Tiling(w, h)[k], px, py)
    ensures forall i :: 0 <= i < Total(w, h) && Covers(Tiling(w, h)[i], px, py) ==> i == k
  {
    var x, y := px / SIDE, py / SIDE;
    SideIsCut(w, 0, px);
    SideIsCut(h, 0, py);
    SideIsCut(w, x, px);
    SideIsCut(h, y, py);
    TileOfTiling(w, h, x, y);
    k := Index(w, x, y);
    forall i | 0 <= i < Total(w, h) && Covers(Tiling(w, h)[i], px, py) ensures i == k {
      IndexIsCellOf(w, h, i);
      SideIsCut(w, Column(Count(w), i), px);
      SideIsCut(h, Row(Count(w), i), py);
    }
  }

  // No tile reaches outside the frame, so the tiles cover the frame and nothing
  // else; in numbers, their areas add up to the area of the frame.

  function AreaSum(tiles: seq<Tile>): nat {
    if tiles == [] then 0 else AreaSum(tiles[..|tiles|-1]) + tiles[|tiles|-1].cx * tiles[|tiles|-1].cy
  }

  // Where tile i begins, or the end of the side.
  function Start(length: nat, i: nat): nat
    requires i <= Count(length)
  {
    if i == Count(length) then length else i * SIDE
  }

  lemma ExtentIsStep(length: nat, i: nat)
    requires i < Count(length)
    ensures Start(length, i) + Extent(length, i) == Start(length, i + 1)
  {
  }

  // The area of the first tiles, up to column x of row y.
  function PrefixSize(w: nat, h: nat, x: nat, y: nat): nat
    requires y < Count(h) && x <= Count(w)
  {
    Start(h, y) * w + Extent(h, y) * Start(w, x)
  }

  lemma NextTileSize(w: nat, h: nat, x: nat, y: nat)
    requires y < Count(h) && 0 < x <= Count(w)
    ensures PrefixSize(w, h, x, y) == PrefixSize(w, h, x - 1, y) + Extent(w, x - 1) * Extent(h, y)
  {
    ExtentIsStep(w, x - 1);
    Adds(Extent(h, y), Start(w, x - 1), Extent(w, x - 1));
    Commutes(Extent(h, y), Extent(w, x - 1));
  }

  lemma NextRowSize(w: nat, h: nat, y: nat)
    requires 0 < y < Count(h)
    ensures PrefixSize(w, h, 0, y) == PrefixSize(w, h, Count(w), y - 1)
  {
    ExtentIsStep(h, y - 1);
    Adds(w, Start(h, y - 1), Extent(h, y - 1));
    Commutes(Start(h, y), w);
    StartsAtZero(w);
    Commutes(Extent(h, y), 0);
  }

  lemma StartsAtZero(length: nat)
    ensures Start(length, 0) == 0
  {
  }

  lemma Commutes(a: nat, b: nat)
    ensures a * b == b * a
  {
  }

  lemma {:induction false} PrefixArea(w: nat, h: nat, x: nat, y: nat)
    requires y < Count(h) && x <= Count(w)
    ensures Index(w, x, y) <= Total(w, h)
    ensures AreaSum(Tiling(w, h)[..Index(w, x, y)]) == PrefixSize(w, h, x, y)
    decreases y, x
  {
    if x > 0 {
      PrefixArea(w, h, x - 1, y);
      TileOfTiling(w, h, x - 1, y);
      OneTileMore(Tiling(w, h), Index(w, x - 1, y));
      NextTileSize(w, h, x, y);
    } else if y > 0 {
      PrefixArea(w, h, Count(w), y - 1);
      NextRow(w, x, y);
      NextRowSize(w, h, y);
    } else {
      StartsAtZero(h);
      StartsAtZero(w);
      assert Tiling(w, h)[..0] == [];
    }
  }

  lemma NextRow(w: nat, x: nat, y: nat)
    requires y > 0
    ensures Index(w, Count(w), y - 1) == Index(w, 0, y)
  {
  }

  lemma OneTileMore(tiles: seq<Tile>, n: nat)
    requires n < |tiles|
    ensures AreaSum(tiles[..n + 1]) == AreaSum(tiles[..n]) + tiles[n].cx * tiles[n].cy
  {
    assert tiles[..n + 1][..n] == tiles[..n];
  }

  lemma Adds(a: nat, b: nat, c: nat)
    ensures a * (b + c) == a * b + a * c && a * (b + c) == b * a + c * a
  {
  }

  lemma AreasAddUp(w: nat, h: nat)
    requires w > 0 && h > 0
    ensures AreaSum(Tiling(w, h)) == w * h
  {
    var y := Count(h) - 1;
    PrefixArea(w, h, Count(w), y);
    ExtentIsStep(h, y);
    Adds(w, Start(h, y), Extent(h, y));
    var tiles := Tiling(w, h);
    assert tiles[..|tiles|] == tiles;
  }

  // ----- the loops -----

  // None is the failed allocation.
  method MakeTiles(w: nat, h: nat, memory: bool) returns (r: Option<array<Tile>>)
    ensures r.Some? <==> memory
    ensures r.Some? ==> fresh(r.value) && r.value[..] == Tiling(w, h)
  {
    var tilesY := Count(h);
    var count := TileCount(Count(w), tilesY);
    if !memory { return None; }
    var tiles := new Tile[count](_ => Tile(0, 0, 0, 0, 0, 0, 0));
    var y := 0;
    while y < tilesY
      invariant y <= tilesY && Index(w, 0, y) <= count
      invariant tiles[..Index(w, 0, y)] == Tiling(w, h)[..Index(w, 0, y)]
    {
      RowFits(w, h, y);
      MakeRow(w, h, tiles, y);
      y := y + 1;
    }
    assert tiles[..count] == tiles[..];
    return Some(tiles);
  }

  function TileCount(tilesX: nat, tilesY: nat): (n: nat)
    ensures n == Area(tilesY, tilesX)
  {
    AreaIsProduct(tilesY, tilesX);
    tilesX * tilesY
  }

  // The inner loop.
  method MakeRow(w: nat, h: nat, tiles: array<Tile>, y: nat)
    requires tiles.Length == Total(w, h) && y < Count(h) && Index(w, Count(w), y) <= Total(w, h)
    requires tiles[..Index(w, 0, y)] == Tiling(w, h)[..Index(w, 0, y)]
    modifies tiles
    ensures tiles[..Index(w, Count(w), y)] == Tiling(w, h)[..Index(w, Count(w), y)]
  {
    var x := 0;
    while x < Count(w)
      invariant x <= Count(w) && Index(w, x, y) <= tiles.Length
      invariant tiles[..Index(w, x, y)] == Tiling(w, h)[..Index(w, x, y)]
    {
      TileOfTiling(w, h, x, y);
      ghost var n := Index(w, x, y);
      ghost var done := tiles[..n];
      var tile := Tile(x * 64, y * 64,
                       if x == Count(w) - 1 then w - x * 64 else 64,
                       if y == Count(h) - 1 then h - y * 64 else 64, 0, 0, 0);
      assert tile == TileAt(w, h, x, y);
      var k := FlatIndex(Count(w), y, x);
      tiles[k] := tile;
      assert tiles[..n + 1] == done + [tile];
      assert Tiling(w, h)[..n + 1] == Tiling(w, h)[..n] + [tile];
      x := x + 1;
    }
  }

  lemma RowFits(w: nat, h: nat, y: nat)
    requires y < Count(h)
    ensures Index(w, 0, y + 1) == Index(w, Count(w), y) <= Total(w, h)
  {
    if Count(w) > 0 { CellIsInside(Count(h), Count(w), y, Count(w) - 1); } else { AreaIsProduct(y + 1, 0); }
  }
}
