// bgra_to_nv12 of src/c/xrdp_codec_bench.c: a BGRA frame to a padded luma plane
// followed by an interleaved chroma plane of half the height.

module Nv12 {
  import opened Bytes
  import opened Grid

  // ----- C arithmetic -----

  // Integer division in C truncates toward zero.
  function CDiv(a: int, b: int): int
    requires b > 0
  {
    if a >= 0 then a / b else -((-a) / b)
  }

  lemma CDiv256(a: int)
    ensures var rem := a - 256 * CDiv(a, 256);
            if a >= 0 then 0 <= rem < 256 else -256 < rem <= 0
    ensures a == 256 * CDiv(a, 256) <==> a % 256 == 0
  {
  }

  // Conversion of an int to uint8_t.
  function ToU8(x: int): Byte { x % 256 }

  datatype Pixel = Pixel(b: Byte, g: Byte, r: Byte)

  function WeightY(p: Pixel): int { 66 * p.r + 129 * p.g + 25 * p.b }

  function WeightU(p: Pixel): int { -38 * p.r - 74 * p.g + 112 * p.b }

  function WeightV(p: Pixel): int { 112 * p.r - 94 * p.g - 18 * p.b }

  function Luma(p: Pixel): int { CDiv(WeightY(p) + 128, 256) + 16 }

  function ChromaU(p: Pixel): int { CDiv(WeightU(p) + 128, 256) + 128 }

  function ChromaV(p: Pixel): int { CDiv(WeightV(p) + 128, 256) + 128 }

  lemma CDivBetween(a: int, lo: int, hi: int)
    requires lo <= 0 <= hi && 256 * (lo - 1) < a < 256 * (hi + 1)
    ensures lo <= CDiv(a, 256) <= hi
  {
    CDiv256(a);
  }

  lemma SmallIsUnchanged(x: int)
    requires 0 <= x < 256
    ensures ToU8(x) == x
  {
  }

  // The exact ranges; in particular no conversion to uint8_t wraps.
  lemma LumaRange(p: Pixel)
    ensures 16 <= Luma(p) <= 235 && ToU8(Luma(p)) == Luma(p)
  {
    CDivBetween(WeightY(p) + 128, 0, 219);
    SmallIsUnchanged(Luma(p));
  }

  lemma ChromaURange(p: Pixel)
    ensures 17 <= ChromaU(p) <= 240 && ToU8(ChromaU(p)) == ChromaU(p)
  {
    CDivBetween(WeightU(p) + 128, -111, 112);
    SmallIsUnchanged(ChromaU(p));
  }

  lemma ChromaVRange(p: Pixel)
    ensures 17 <= ChromaV(p) <= 240 && ToU8(ChromaV(p)) == ChromaV(p)
  {
    CDivBetween(WeightV(p) + 128, -111, 112);
    SmallIsUnchanged(ChromaV(p));
  }

  // How far q is from w / 256, in units of 1/512; at most half a unit apart when
  // q is w / 256 rounded to nearest.
  predicate Nearest(q: int, w: int) { -256 < 2 * (256 * q - w) <= 256 }

  lemma TruncationRounds(w: int)
    ensures Nearest(CDiv(w + 128, 256), w) <==> w + 128 >= 0 || (w + 128) % 256 == 0
  {
    CDiv256(w + 128);
  }

  // Luma is always rounded to nearest. Chroma is so exactly when its weighted
  // sum is at least -128 or lies exactly between two values.
  lemma Rounding(p: Pixel)
    ensures Nearest(Luma(p) - 16, WeightY(p))
    ensures Nearest(ChromaU(p) - 128, WeightU(p)) <==> WeightU(p) >= -128 || (WeightU(p) + 128) % 256 == 0
    ensures Nearest(ChromaV(p) - 128, WeightV(p)) <==> WeightV(p) >= -128 || (WeightV(p) + 128) % 256 == 0
  {
    TruncationRounds(WeightY(p));
    TruncationRounds(WeightU(p));
    TruncationRounds(WeightV(p));
  }

  // ----- layout -----

  // (width + 15) & ~15
  function Padded(w: nat): (pw: nat)
    ensures w <= pw < w + 16 && pw % 16 == 0
  {
    (w + 15) / 16 * 16
  }

  function LumaSize(w: nat, h: nat): nat { Area(h, Padded(w)) }

  function ChromaSize(w: nat, h: nat): nat { Area(h / 2, Padded(w)) }

  function Size(w: nat, h: nat): nat { LumaSize(w, h) + ChromaSize(w, h) }

  predicate Frame(bgra: seq<Byte>, w: nat, h: nat) {
    w > 0 && h % 2 == 0 && |bgra| == Area(h, w) * 4
  }

  function PixelAt(bgra: seq<Byte>, w: nat, h: nat, y: nat, x: nat): Pixel
    requires Frame(bgra, w, h) && y < h && x < w
  {
    CellIsInside(h, w, y, x);
    var offset := (Area(y, w) + x) * 4;
    Pixel(bgra[offset], bgra[offset + 1], bgra[offset + 2])
  }

  // ----- the converted frame -----

  // Where a cell of the buffer comes from.
  datatype Origin = Padding(value: Byte) | LumaOf(y: nat, x: nat) | UOf(y: nat, x: nat) | VOf(y: nat, x: nat)

  predicate Inside(o: Origin, w: nat, h: nat) { o.Padding? || (o.y < h && o.x < w) }

  function LumaOrigin(w: nat, h: nat, k: nat): (o: Origin)
    requires w > 0 && k < LumaSize(w, h)
    ensures Inside(o, w, h)
  {
    var pw := Padded(w);
    IndexIsCell(h, pw, k);
    if Column(pw, k) < w then LumaOf(Row(pw, k), Column(pw, k)) else Padding(16)
  }

  // In the chroma plane a pair of cells belongs to a block of two by two pixels
  // and is taken from its top left pixel.
  function ChromaOrigin(w: nat, h: nat, k: nat): (o: Origin)
    requires w > 0 && k < ChromaSize(w, h)
    ensures Inside(o, w, h)
  {
    var pw := Padded(w);
    IndexIsCell(h / 2, pw, k);
    var x := BlockColumn(Column(pw, k));
    if x >= w then Padding(128)
    else if Column(pw, k) == x then UOf(2 * Row(pw, k), x)
    else VOf(2 * Row(pw, k), x)
  }

  function BlockColumn(x: nat): (c: nat)
    ensures c % 2 == 0 && c <= x <= c + 1
  {
    x - x % 2
  }

  function OriginOf(w: nat, h: nat, k: nat): (o: Origin)
    requires w > 0 && k < Size(w, h)
    ensures Inside(o, w, h)
  {
    if k < LumaSize(w, h) then LumaOrigin(w, h, k) else ChromaOrigin(w, h, k - LumaSize(w, h))
  }

  function SampleOf(bgra: seq<Byte>, w: nat, h: nat, o: Origin): Byte
    requires Frame(bgra, w, h) && Inside(o, w, h)
  {
    match o
    case Padding(v) => v
    case LumaOf(y, x) => ToU8(Luma(PixelAt(bgra, w, h, y, x)))
    case UOf(y, x) => ToU8(ChromaU(PixelAt(bgra, w, h, y, x)))
    case VOf(y, x) => ToU8(ChromaV(PixelAt(bgra, w, h, y, x)))
  }

  function Cell(bgra: seq<Byte>, w: nat, h: nat, k: nat): Byte
    requires Frame(bgra, w, h) && k < Size(w, h)
  {
    SampleOf(bgra, w, h, OriginOf(w, h, k))
  }

  function Converted(bgra: seq<Byte>, w: nat, h: nat): (r: seq<Byte>)
    requires Frame(bgra, w, h)
    ensures |r| == Size(w, h)
  {
    seq(Size(w, h), k requires 0 <= k < Size(w, h) => Cell(bgra, w, h, k))
  }

  // The luma cell of a pixel, and the first of the two chroma cells of a block.
  function LumaIndex(w: nat, y: nat, x: nat): nat { Area(y, Padded(w)) + x }

  function ChromaIndex(w: nat, h: nat, j: nat, x: nat): nat { LumaSize(w, h) + (Area(j, Padded(w)) + x) }

  // The luma plane, by pixel.
  lemma LumaPlane(bgra: seq<Byte>, w: nat, h: nat, y: nat, x: nat)
    requires Frame(bgra, w, h) && y < h && x < Padded(w)
    ensures LumaIndex(w, y, x) < LumaSize(w, h)
    ensures Converted(bgra, w, h)[LumaIndex(w, y, x)] == if x < w then Luma(PixelAt(bgra, w, h, y, x)) else 16
  {
    PixelCell(w, h, y, x);
    if x < w { LumaRange(PixelAt(bgra, w, h, y, x)); }
  }

  // The chroma plane, by block: its top left pixel gives both samples.
  lemma ChromaPlane(bgra: seq<Byte>, w: nat, h: nat, j: nat, x: nat)
    requires Frame(bgra, w, h) && j < h / 2 && x < Padded(w) && x % 2 == 0
    ensures ChromaIndex(w, h, j, x) + 1 < Size(w, h)
    ensures var k, out := ChromaIndex(w, h, j, x), Converted(bgra, w, h);
            if x < w then
              && out[k] == ChromaU(PixelAt(bgra, w, h, 2 * j, x))
              && out[k + 1] == ChromaV(PixelAt(bgra, w, h, 2 * j, x))
            else out[k] == out[k + 1] == 128
  {
    BlockCells(w, h, j, x);
    if x < w {
      ChromaURange(PixelAt(bgra, w, h, 2 * j, x));
      ChromaVRange(PixelAt(bgra, w, h, 2 * j, x));
    }
  }

  // Where the bytes of a pixel are, and in which order: blue, green, red.
  lemma PixelBytes(bgra: seq<Byte>, w: nat, h: nat, y: nat, x: nat)
    requires Frame(bgra, w, h) && y < h && x < w
    ensures 4 * (y * w + x) + 2 < |bgra|
    ensures var o, p := 4 * (y * w + x), PixelAt(bgra, w, h, y, x);
            p.b == bgra[o] && p.g == bgra[o + 1] && p.r == bgra[o + 2]
  {
    CellIsInside(h, w, y, x);
    AreaIsProduct(y, w);
  }

  // The luma plane in terms of the bytes, with rows of (w + 15) & ~15 cells.
  lemma LumaInFull(bgra: seq<Byte>, w: nat, h: nat, y: nat, x: nat)
    requires Frame(bgra, w, h) && y < h && x < w
    ensures y * Padded(w) + x < Size(w, h) && 4 * (y * w + x) + 2 < |bgra|
    ensures var o := 4 * (y * w + x);
            var blue: int, green: int, red: int := bgra[o], bgra[o + 1], bgra[o + 2];
            Converted(bgra, w, h)[y * Padded(w) + x] == (66 * red + 129 * green + 25 * blue + 128) / 256 + 16
  {
    PixelBytes(bgra, w, h, y, x);
    LumaPlane(bgra, w, h, y, x);
    AreaIsProduct(y, Padded(w));
  }

  // The chroma plane starts after h rows of luma; every pair of cells is U and V
  // of the top left pixel of its block.
  lemma ChromaInFull(bgra: seq<Byte>, w: nat, h: nat, j: nat, x: nat)
    requires Frame(bgra, w, h) && j < h / 2 && x < w && x % 2 == 0
    ensures h * Padded(w) + (j * Padded(w) + x) + 1 < Size(w, h) && 4 * (2 * j * w + x) + 2 < |bgra|
    ensures var o, k := 4 * (2 * j * w + x), h * Padded(w) + (j * Padded(w) + x);
            var blue: int, green: int, red: int := bgra[o], bgra[o + 1], bgra[o + 2];
            && Converted(bgra, w, h)[k] == CDiv(-38 * red - 74 * green + 112 * blue + 128, 256) + 128
            && Converted(bgra, w, h)[k + 1] == CDiv(112 * red - 94 * green - 18 * blue + 128, 256) + 128
  {
    PixelBytes(bgra, w, h, 2 * j, x);
    ChromaPlane(bgra, w, h, j, x);
    AreaIsProduct(j, Padded(w));
    AreaIsProduct(h, Padded(w));
  }

  lemma PixelCell(w: nat, h: nat, y: nat, x: nat)
    requires w > 0 && y < h && x < Padded(w)
    ensures LumaIndex(w, y, x) < LumaSize(w, h)
    ensures OriginOf(w, h, LumaIndex(w, y, x)) == if x < w then LumaOf(y, x) else Padding(16)
  {
    CellIsInside(h, Padded(w), y, x);
    RowAndColumn(Padded(w), y, x);
  }

  lemma BlockCells(w: nat, h: nat, j: nat, x: nat)
    requires w > 0 && j < h / 2 && x < Padded(w) && x % 2 == 0
    ensures var pw, k := Padded(w), ChromaIndex(w, h, j, x) - LumaSize(w, h);
            && k + 1 < ChromaSize(w, h)
            && Row(pw, k) == Row(pw, k + 1) == j && Column(pw, k) == x && Column(pw, k + 1) == x + 1
    ensures OriginOf(w, h, ChromaIndex(w, h, j, x)) == if x < w then UOf(2 * j, x) else Padding(128)
    ensures OriginOf(w, h, ChromaIndex(w, h, j, x) + 1) == if x < w then VOf(2 * j, x) else Padding(128)
  {
    var pw := Padded(w);
    CellIsInside(h / 2, pw, j, x);
    CellIsInside(h / 2, pw, j, x + 1);
    RowAndColumn(pw, j, x);
    RowAndColumn(pw, j, x + 1);
  }

  // ----- the loops -----

  // Whether cell k has been written when the loops have reached row y, column x.
  predicate Done(w: nat, h: nat, k: nat, y: nat, x: nat)
    requires w > 0
  {
    var pw := Padded(w);
    if k < LumaSize(w, h) then
      Column(pw, k) < w && (Row(pw, k) < y || (Row(pw, k) == y && Column(pw, k) < x))
    else
      var c := k - LumaSize(w, h);
      var column := BlockColumn(Column(pw, c));
      column < w && (2 * Row(pw, c) < y || (2 * Row(pw, c) == y && column < x))
  }

  predicate StartsBlock(y: nat, x: nat) { y % 2 == 0 && x % 2 == 0 }

  // The cells that the loop body writes for one pixel.
  function Written(w: nat, h: nat, y: nat, x: nat): set<nat> {
    {LumaIndex(w, y, x)}
    + if StartsBlock(y, x) then {ChromaIndex(w, h, y / 2, x), ChromaIndex(w, h, y / 2, x) + 1} else {}
  }

  lemma LumaStep(w: nat, h: nat, y: nat, x: nat, k: nat)
    requires w > 0 && y < h && x < w && k < LumaSize(w, h)
    ensures Done(w, h, k, y, x + 1) <==> Done(w, h, k, y, x) || k == LumaIndex(w, y, x)
    ensures k == LumaIndex(w, y, x) ==> !Done(w, h, k, y, x)
  {
    IndexIsCell(h, Padded(w), k);
    RowAndColumn(Padded(w), y, x);
  }

  // The two cells of a block, among all cells of the chroma plane.
  lemma CellsOfBlock(w: nat, h: nat, j: nat, x: nat, c: nat)
    requires w > 0 && j < h / 2 && x < Padded(w) && x % 2 == 0 && c < ChromaSize(w, h)
    ensures Area(j, Padded(w)) + x <= c <= Area(j, Padded(w)) + x + 1 <==>
              Row(Padded(w), c) == j && BlockColumn(Column(Padded(w), c)) == x
  {
    IndexIsCell(h / 2, Padded(w), c);
    RowAndColumn(Padded(w), j, x);
    RowAndColumn(Padded(w), j, x + 1);
  }

  lemma ChromaStep(w: nat, h: nat, y: nat, x: nat, k: nat)
    requires w > 0 && h % 2 == 0 && y < h && x < w && LumaSize(w, h) <= k < Size(w, h)
    ensures var mine := StartsBlock(y, x) && ChromaIndex(w, h, y / 2, x) <= k <= ChromaIndex(w, h, y / 2, x) + 1;
            && (Done(w, h, k, y, x + 1) <==> Done(w, h, k, y, x) || mine)
            && (mine ==> !Done(w, h, k, y, x))
  {
    if StartsBlock(y, x) {
      CellsOfBlock(w, h, y / 2, x, k - LumaSize(w, h));
      assert 2 * (y / 2) == y;
    }
  }

  // One pixel adds exactly its own cells, none of which was written before.
  lemma OnePixelMore(w: nat, h: nat, y: nat, x: nat, k: nat)
    requires w > 0 && h % 2 == 0 && y < h && x < w && k < Size(w, h)
    ensures Done(w, h, k, y, x + 1) <==> Done(w, h, k, y, x) || k in Written(w, h, y, x)
    ensures k in Written(w, h, y, x) ==> !Done(w, h, k, y, x)
  {
    CellIsInside(h, Padded(w), y, x);
    if k < LumaSize(w, h) {
      LumaStep(w, h, y, x, k);
    } else {
      ChromaStep(w, h, y, x, k);
    }
  }

  lemma RowFinished(w: nat, h: nat, y: nat, k: nat)
    requires w > 0
    ensures Done(w, h, k, y, w) <==> Done(w, h, k, y + 1, 0)
  {
  }

  function Background(w: nat, h: nat, k: nat): Byte { if k < LumaSize(w, h) then 16 else 128 }

  // When the loops are finished, the cells not written are padding.
  lemma RestIsPadding(bgra: seq<Byte>, w: nat, h: nat, k: nat)
    requires Frame(bgra, w, h) && k < Size(w, h)
    ensures !Done(w, h, k, h, 0) ==> Cell(bgra, w, h, k) == Background(w, h, k)
  {
    var pw := Padded(w);
    if k < LumaSize(w, h) {
      IndexIsCell(h, pw, k);
    } else {
      IndexIsCell(h / 2, pw, k - LumaSize(w, h));
    }
  }

  // The buffer when the loops have reached row y, column x on the way to `goal`.
  ghost predicate Progress(w: nat, h: nat, goal: seq<Byte>, out: seq<Byte>, y: nat, x: nat)
    requires w > 0 && |goal| == Size(w, h)
  {
    && |out| == |goal|
    && forall k :: 0 <= k < |out| ==> out[k] == if Done(w, h, k, y, x) then goal[k] else Background(w, h, k)
  }

  lemma ProgressStep(w: nat, h: nat, goal: seq<Byte>, was: seq<Byte>, now: seq<Byte>, y: nat, x: nat)
    requires w > 0 && h % 2 == 0 && |goal| == Size(w, h) && y < h && x < w
    requires Progress(w, h, goal, was, y, x) && |now| == |was|
    requires forall k :: 0 <= k < |now| ==> now[k] == if k in Written(w, h, y, x) then goal[k] else was[k]
    ensures Progress(w, h, goal, now, y, x + 1)
  {
    forall k | 0 <= k < |now|
      ensures now[k] == if Done(w, h, k, y, x + 1) then goal[k] else Background(w, h, k)
    {
      OnePixelMore(w, h, y, x, k);
    }
  }

  // What the loop body has to store.
  lemma GoalOfPixel(bgra: seq<Byte>, w: nat, h: nat, y: nat, x: nat)
    requires Frame(bgra, w, h) && y < h && x < w
    ensures LumaIndex(w, y, x) < LumaSize(w, h)
    ensures Converted(bgra, w, h)[LumaIndex(w, y, x)] == ToU8(Luma(PixelAt(bgra, w, h, y, x)))
    ensures StartsBlock(y, x) ==>
              var k, goal := ChromaIndex(w, h, y / 2, x), Converted(bgra, w, h);
              && LumaSize(w, h) <= k && k + 1 < Size(w, h)
              && goal[k] == ToU8(ChromaU(PixelAt(bgra, w, h, y, x)))
              && goal[k + 1] == ToU8(ChromaV(PixelAt(bgra, w, h, y, x)))
  {
    PixelCell(w, h, y, x);
    if StartsBlock(y, x) { BlockCells(w, h, y / 2, x); }
  }

  method BgraToNv12(bgra: seq<Byte>, w: nat, h: nat, nv12: array<Byte>)
    requires Frame(bgra, w, h) && nv12.Length == Size(w, h)
    modifies nv12
    ensures nv12[..] == Converted(bgra, w, h)
  {
    var uvPlane := LumaSize(w, h);
    ghost var goal := Converted(bgra, w, h);
    forall k | 0 <= k < nv12.Length { nv12[k] := if k < uvPlane then 16 else 128; }
    var y := 0;
    while y < h
      invariant y <= h
      invariant Progress(w, h, goal, nv12[..], y, 0)
    {
      var x := 0;
      while x < w
        invariant x <= w
        invariant Progress(w, h, goal, nv12[..], y, x)
      {
        var pixel := ReadPixel(bgra, w, h, y, x);
        GoalOfPixel(bgra, w, h, y, x);
        ConvertPixel(pixel, w, h, goal, nv12, y, x);
        x := x + 1;
      }
      forall k | 0 <= k < Size(w, h) ensures Done(w, h, k, y, w) <==> Done(w, h, k, y + 1, 0) { RowFinished(w, h, y, k); }
      y := y + 1;
    }
    forall k | 0 <= k < Size(w, h) ensures nv12[k] == goal[k] { RestIsPadding(bgra, w, h, k); }
  }

  method ReadPixel(bgra: seq<Byte>, w: nat, h: nat, y: nat, x: nat) returns (pixel: Pixel)
    requires Frame(bgra, w, h) && y < h && x < w
    ensures pixel == PixelAt(bgra, w, h, y, x)
  {
    CellIsInside(h, w, y, x);
    var index := FlatIndex(w, y, x);
    var offset := index * 4;
    pixel := Pixel(bgra[offset], bgra[offset + 1], bgra[offset + 2]);
  }

  // The stores of the loop body. They touch no cell but the pixel's own.
  method ConvertPixel(pixel: Pixel, w: nat, h: nat, ghost goal: seq<Byte>, nv12: array<Byte>, y: nat, x: nat)
    requires w > 0 && h % 2 == 0 && y < h && x < w && nv12.Length == |goal| == Size(w, h)
    requires LumaIndex(w, y, x) < LumaSize(w, h) && goal[LumaIndex(w, y, x)] == ToU8(Luma(pixel))
    requires StartsBlock(y, x) ==>
               var k := ChromaIndex(w, h, y / 2, x);
               && LumaSize(w, h) <= k && k + 1 < Size(w, h)
               && goal[k] == ToU8(ChromaU(pixel)) && goal[k + 1] == ToU8(ChromaV(pixel))
    requires Progress(w, h, goal, nv12[..], y, x)
    modifies nv12
    ensures Progress(w, h, goal, nv12[..], y, x + 1)
    ensures forall k :: 0 <= k < nv12.Length && k !in Written(w, h, y, x) ==> nv12[k] == old(nv12[k])
  {
    ghost var was := nv12[..];
    var cell := FlatIndex(Padded(w), y, x);
    nv12[cell] := ToU8(Luma(pixel));
    if y % 2 == 0 && x % 2 == 0 {
      var uv := FlatIndex(Padded(w), y / 2, x);
      uv := LumaSize(w, h) + uv;
      nv12[uv] := ToU8(ChromaU(pixel));
      nv12[uv + 1] := ToU8(ChromaV(pixel));
    }
    ProgressStep(w, h, goal, was, nv12[..], y, x);
  }
}
