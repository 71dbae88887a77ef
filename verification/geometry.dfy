/**
 * Sizes computed by the watermark engine (Watermark.ts): the tile canvas built by
 * `createWatermarkCanvas`, and the display size chosen by the image `onload` handler.
 *
 * Canvas dimensions are WebIDL `unsigned long` reflected attributes: an assigned number is
 * truncated toward zero and taken modulo 2^32, and a result above 2^31 - 1 makes the canvas fall
 * back to its default (300 wide, 150 high).  Both steps are written out in `CanvasDimension`.
 */
module Geometry {
  import opened Types
  import opened AutoLine

  /** Default width and height of a canvas element. */
  const DefaultCanvasWidth: nat := 300
  const DefaultCanvasHeight: nat := 150

  /** The largest value a reflected `unsigned long` attribute keeps. */
  const MaxReflected: int := 0x7FFF_FFFF

  /** Truncation toward zero, as the conversion of a number to an integer type does. */
  function Truncate(x: real): (n: int)
    ensures x >= 0.0 ==> n as real <= x < n as real + 1.0
    ensures x < 0.0 ==> n as real - 1.0 < x <= n as real
  {
    if x >= 0.0 then x.Floor else -((-x).Floor)
  }

  /** The dimension a canvas ends up with after `canvas.width = x` (or `height`). */
  function CanvasDimension(x: real, default: nat): (d: nat)
    ensures 0.0 <= x < MaxReflected as real + 1.0 ==> d == x.Floor
    ensures d <= MaxReflected || d == default
  {
    var u := Truncate(x) % 0x1_0000_0000;
    if u <= MaxReflected then u else default
  }

  /** The largest `r` with `r * r <= n` (`Math.sqrt` followed by truncation, on integers). */
  function FloorSqrt(n: nat): (r: nat)
    ensures r * r <= n < (r + 1) * (r + 1)
  {
    if n < 2 then n
    else
      var h := FloorSqrt(n / 4);
      SqrtStep(n, h);
      if (2 * h + 1) * (2 * h + 1) <= n then 2 * h + 1 else 2 * h
  }

  /** From the root of `n / 4`, the root of `n` is `2h` or `2h + 1`. */
  lemma SqrtStep(n: nat, h: nat)
    requires h * h <= n / 4 < (h + 1) * (h + 1)
    ensures (2 * h) * (2 * h) <= n < (2 * h + 2) * (2 * h + 2)
  {
    var q := n / 4;
    assert n == 4 * q + n % 4;
    assert (2 * h) * (2 * h) == 4 * (h * h);
    assert (2 * h + 2) * (2 * h + 2) == 4 * ((h + 1) * (h + 1));
  }

  /** Where `createWatermarkCanvas` starts the text: the integer offsets computed by trigonometry. */
  datatype Offset = Offset(x: int, y: int)

  /**
   * The tile canvas: its dimensions, the font size, angle and fill it was drawn with, and the
   * `fillText` calls of the wrapped text (in the rotated frame).
   */
  datatype Tile = Tile(width: nat, height: nat, fontSize: int, rotate: int, fillStyle: string,
                       calls: seq<DrawCall>)

  /** `watermarkCanvas.width = sqrt(w^2 + h^2)`: the diagonal of the tile, truncated. */
  function TileWidth(w: int, h: int): nat
  {
    CanvasDimension(FloorSqrt(w * w + h * h) as real, DefaultCanvasWidth)
  }

  /** `watermarkCanvas.height = h`. */
  function TileHeight(h: int): nat
  {
    CanvasDimension(h as real, DefaultCanvasHeight)
  }

  /** The line pitch `fontSize * 1.4`. */
  function LinePitch(fontSize: int): real
  {
    fontSize as real * 1.4
  }

  /**
   * `createWatermarkCanvas`: the tile for options `o`, with `glyph(fontSize, c)` the measured width
   * of `c` in the `fontSize`px font and `offset` the trigonometric start point.
   */
  function BuildTile(o: WatermarkOptions, glyph: (int, char) -> real, offset: Offset): Tile
  {
    Tile(TileWidth(o.watermarkWidth, o.watermarkHeight), TileHeight(o.watermarkHeight),
         o.fontSize, o.rotate, o.fillStyle, TileCalls(o, glyph, offset))
  }

  /**
   * The wrap call of `createWatermarkCanvas`: block width `watermarkWidth`, start
   * `(X + 10, Y + fontSize + 20)`, pitch `fontSize * 1.4`.
   */
  function TileCalls(o: WatermarkOptions, glyph: (int, char) -> real, offset: Offset): seq<DrawCall>
  {
    CanvasTextAutoLine(o.text, Measure(glyph, o.fontSize), o.watermarkWidth as real,
                       (offset.x + 10) as real, (offset.y + o.fontSize + 20) as real,
                       LinePitch(o.fontSize))
  }

  /** The width of one character in the `fontSize`px font. */
  function Measure(glyph: (int, char) -> real, fontSize: int): char -> real
  {
    c => glyph(fontSize, c)
  }

  lemma FloorSqrtAtLeast(n: nat, a: nat)
    requires a * a <= n
    ensures a <= FloorSqrt(n)
  {
    var r := FloorSqrt(n);
    if r < a {
      assert (r + 1) * (r + 1) <= a * a by {
        assert r + 1 <= a;
        MulMono(r + 1, a);
      }
      assert false;
    }
  }

  lemma MulMono(a: nat, b: nat)
    requires a <= b
    ensures a * a <= b * b
  {
    assert a * a <= a * b <= b * b;
  }

  /**
   * The tile is as tall as the watermark block and, while the diagonal fits a canvas, at least as
   * wide as both of its sides, so the rotated text block fits in it.
   */
  lemma TileCoversBlock(w: nat, h: nat)
    requires h <= MaxReflected
    requires w * w + h * h <= MaxReflected * MaxReflected
    ensures TileHeight(h) == h
    ensures w <= TileWidth(w, h) && h <= TileWidth(w, h)
  {
    var n := w * w + h * h;
    FloorSqrtAtLeast(n, w);
    FloorSqrtAtLeast(n, h);
    FloorSqrtAtMost(n, MaxReflected);
    SmallDimension(FloorSqrt(n), DefaultCanvasWidth);
    SmallDimension(h, DefaultCanvasHeight);
  }

  lemma FloorSqrtAtMost(n: nat, m: nat)
    requires n <= m * m
    ensures FloorSqrt(n) <= m
  {
    var r := FloorSqrt(n);
    assert (m + 1) * (m + 1) == m * m + 2 * m + 1;
    if r > m {
      MulMono(m + 1, r);
      assert false;
    }
  }

  /** A whole number of pixels within range is kept as assigned. */
  lemma SmallDimension(n: int, default: nat)
    requires 0 <= n <= MaxReflected
    ensures CanvasDimension(n as real, default) == n
  {
    assert (n as real).Floor == n;
  }

  /** A 100 x 100 block gets a 141-pixel-wide tile: the diagonal is truncated, not rounded up. */
  lemma TileWidthExample()
    ensures TileWidth(100, 100) == 141
  {
    assert 141 * 141 <= 20000 < 142 * 142;
    FloorSqrtAtLeast(20000, 141);
    var r := FloorSqrt(20000);
    if r > 141 {
      MulMono(142, r);
      assert false;
    }
  }

  /** The tile's text is the option text, unchanged and in order, wrapped at the block width. */
  lemma TileText(o: WatermarkOptions, glyph: (int, char) -> real, offset: Offset)
    ensures Join(Texts(TileCalls(o, glyph, offset))) == o.text
  {
    var x := (offset.x + 10) as real;
    var y := (offset.y + o.fontSize + 20) as real;
    AutoLinePartition(o.text, Measure(glyph, o.fontSize), o.watermarkWidth as real, x, y, LinePitch(o.fontSize));
  }

  /** Line `k` of the tile starts at `(X + 10, Y + fontSize + 20 + k * fontSize * 1.4)`. */
  lemma TileLinePositions(o: WatermarkOptions, glyph: (int, char) -> real, offset: Offset)
    ensures var calls := TileCalls(o, glyph, offset);
            forall k :: 0 <= k < |calls| ==>
              && calls[k].x == (offset.x + 10) as real
              && calls[k].y == (offset.y + o.fontSize + 20) as real + (k as real) * LinePitch(o.fontSize)
  {
    var x := (offset.x + 10) as real;
    var y := (offset.y + o.fontSize + 20) as real;
    AutoLinePositions(o.text, Measure(glyph, o.fontSize), o.watermarkWidth as real, x, y, LinePitch(o.fontSize));
  }

  /** A tile has text drawn on it exactly when the option text is not empty. */
  lemma TileDrawsText(o: WatermarkOptions, glyph: (int, char) -> real, offset: Offset)
    ensures o.text == [] <==> TileCalls(o, glyph, offset) == []
  {
    var x := (offset.x + 10) as real;
    var y := (offset.y + o.fontSize + 20) as real;
    AutoLineEmptyIff(o.text, Measure(glyph, o.fontSize), o.watermarkWidth as real, x, y, LinePitch(o.fontSize));
  }

  // ---------------------------------------------------------------------------------------------
  // Display size
  // ---------------------------------------------------------------------------------------------

  /** A displayed image size; the height may be fractional. */
  datatype Size = Size(width: real, height: real)

  /** `Math.min(window.innerWidth - 100, 1200)`. */
  function MaxDisplayWidth(innerWidth: int): (m: int)
    ensures m <= 1200 && m <= innerWidth - 100
    ensures m == 1200 || m == innerWidth - 100
  {
    if innerWidth - 100 < 1200 then innerWidth - 100 else 1200
  }

  /**
   * The size the `onload` handler gives an image of natural size `origW x origH`: the displayed
   * width is the smaller of the natural width and the limit; a scaled image keeps its aspect ratio
   * (`height * origW == maxWidth * origH`), and an image within the limit keeps its natural size.
   */
  function DisplaySize(origW: nat, origH: nat, innerWidth: int): (d: Size)
    requires innerWidth >= 100 || origW > 0
    ensures var maxWidth := MaxDisplayWidth(innerWidth);
            && d.width == (if origW <= maxWidth then origW else maxWidth) as real
            && (origW > maxWidth ==> d.height * origW as real == (maxWidth * origH) as real)
            && (origW <= maxWidth ==> d.height == origH as real)
  {
    var maxWidth := MaxDisplayWidth(innerWidth);
    if origW > maxWidth then Size(maxWidth as real, (maxWidth * origH) as real / origW as real)
    else Size(origW as real, origH as real)
  }

  /** In a viewport at least 100 wide, the displayed width never exceeds 1200 or the viewport less 100. */
  lemma DisplayWidthBound(origW: nat, origH: nat, innerWidth: int)
    requires innerWidth >= 100
    ensures var d := DisplaySize(origW, origH, innerWidth);
            0.0 <= d.width <= 1200.0 && d.width <= (innerWidth - 100) as real
  {
  }

  /** A 2000 x 1000 image in a 1920-wide window is shown at 1200 x 600. */
  lemma DisplaySizeExample()
    ensures DisplaySize(2000, 1000, 1920) == Size(1200.0, 600.0)
  {
  }
}
