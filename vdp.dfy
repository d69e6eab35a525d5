/** The VDP simulator's tile renderer: a 64 x 64 tilemap of 16-bit tile numbers, each naming an
    8 x 8 tile of one-byte pixels (64 bytes) in a 96 KB VRAM, drawn into a 320 x 240 RGBA
    framebuffer starting at a scroll offset. The renderer is modelled as written, including its
    row start, which resets the tile column to 0 instead of `scroll_x / 8` and keeps the last tile
    of the previous row until the next tile boundary; no general scrolling property is claimed.
    A Rust panic (an out-of-range index or slice) is excluded by the method's preconditions. */
module Vdp {
  import opened Common

  type U16 = x: int | 0 <= x < 0x1_0000

  /** `VRAM_SIZE_BYTES`. */
  const VramSize: nat := 98304

  /** Tiles VRAM holds: 98304 / 64. */
  const VramTiles: nat := 1536

  /** Tilemap side, in tiles. */
  const MapTiles: nat := 64

  /** Displayed columns and rows. */
  const Width: nat := 320
  const Height: nat := 240

  /** Pixels in a frame, and bytes of the RGBA framebuffer they fill. */
  const FramePixels: nat := 76800
  const FrameBytes: nat := 307200

  /** An RGBA value: red, green, blue and alpha bytes. */
  type Rgba = (bv8, bv8, bv8, bv8)

  datatype TilemapMode = Mode320x240 | Mode512x512

  datatype Vdp = Vdp(vram: seq<bv8>, mode: TilemapMode, scrollX: U32, scrollY: U32, tilemap: seq<seq<U16>>)

  /** The fixed array sizes of the struct: 98304 bytes of VRAM and 64 rows of 64 tile numbers. */
  predicate WellFormed(v: Vdp)
  {
    |v.vram| == VramSize && |v.tilemap| == MapTiles && forall y | 0 <= y < MapTiles :: |v.tilemap[y]| == MapTiles
  }

  /** `VDP::new`. */
  function New(): (v: Vdp)
    ensures WellFormed(v) && v.mode == Mode320x240 && v.scrollX == 0 && v.scrollY == 0
    ensures forall k | 0 <= k < VramSize :: v.vram[k] == 0
    ensures forall y, x | 0 <= y < MapTiles && 0 <= x < MapTiles :: v.tilemap[y][x] == 0
  {
    Vdp(seq(VramSize, _ => 0), Mode320x240, 0, 0, seq(MapTiles, _ => seq(MapTiles, _ => 0)))
  }

  // ------------------------------------------------------------------ pixel decoding

  /** `VDP::px_to_rgba`: the 2-bit red, green and blue fields (bits 0-1, 2-3, 4-5) moved to the
      top of a byte each, and alpha 0xff unless bit 6 (transparency) is set. */
  function PxToRgba(px: bv8): (p: Rgba)
    ensures p.0 in {0, 64, 128, 192} && p.1 in {0, 64, 128, 192} && p.2 in {0, 64, 128, 192}
    ensures p.0 >> 6 == px & 3 && p.1 >> 6 == (px >> 2) & 3 && p.2 >> 6 == (px >> 4) & 3
    ensures (p.3 == 0xff <==> px & 0x40 == 0) && (p.3 == 0 <==> px & 0x40 != 0)
  {
    ((px & 0x03) << 6, ((px & 0x0C) >> 2) << 6, ((px & 0x30) >> 4) << 6, if px & 0x40 == 0 then 0xff else 0)
  }

  /** The colour and transparency bits can be read back from the RGBA value, so `px_to_rgba` loses
      only bit 7. */
  lemma PxToRgbaRecovers(px: bv8)
    ensures var p := PxToRgba(px);
      (p.0 >> 6) | ((p.1 >> 6) << 2) | ((p.2 >> 6) << 4) | (if p.3 == 0 then 0x40 else 0) == px & 0x7F
  {
  }

  /** Pixels that differ only in bit 7 decode alike; pixels that differ below bit 7 do not. */
  lemma PxToRgbaKernel(a: bv8, b: bv8)
    ensures PxToRgba(a) == PxToRgba(b) <==> a & 0x7F == b & 0x7F
  {
    PxToRgbaRecovers(a);
    PxToRgbaRecovers(b);
  }

  // ------------------------------------------------------------------ what `render` reads

  /** Tile column and row of the display's upper-left corner, and how many pixels into that tile
      it sits. */
  function StartTileX(v: Vdp): nat { v.scrollX / 8 }
  function StartTileY(v: Vdp): nat { v.scrollY / 8 }
  function OffsetX(v: Vdp): nat { v.scrollX % 8 }
  function OffsetY(v: Vdp): nat { v.scrollY % 8 }

  /** The scroll offset is split into a whole number of tiles and a pixel offset inside one. */
  lemma ScrollSplit(v: Vdp)
    ensures v.scrollX == 8 * StartTileX(v) + OffsetX(v) && OffsetX(v) < 8
    ensures v.scrollY == 8 * StartTileY(v) + OffsetY(v) && OffsetY(v) < 8
  {
  }

  /** Every tilemap read stays inside the 64 x 64 map: the first row reads up to 40 tiles to the
      right of the start column, and the frame reads 30 tile rows below the start row. */
  predicate TilemapInBounds(v: Vdp)
  {
    StartTileX(v) + 40 < MapTiles && StartTileY(v) + 30 < MapTiles
  }

  /** The tilemap row `render` is on at display row r. */
  function TileRow(v: Vdp, r: nat): (ty: nat)
    requires r < Height && TilemapInBounds(v)
    ensures ty < MapTiles
  {
    StartTileY(v) + (OffsetY(v) + r) / 8
  }

  /** The tile column variable at the start of display row r: `scroll_x / 8` for the first row,
      0 for every later one (:190). */
  function RowStartColumn(v: Vdp, r: nat): nat
  {
    if r == 0 then StartTileX(v) else 0
  }

  /** The tile number held at the start of display row r. Row 0 fetches its start tile; a row
      that begins a new tile row fetches column 0 of it (:195); any other row keeps the tile
      fetched last in the row before, 40 columns right of that row's start column. */
  function RowStartTile(v: Vdp, r: nat): U16
    requires WellFormed(v) && TilemapInBounds(v) && r < Height
  {
    if r == 0 then v.tilemap[StartTileY(v)][StartTileX(v)]
    else if (OffsetY(v) + r) % 8 == 0 then v.tilemap[TileRow(v, r)][0]
    else v.tilemap[TileRow(v, r)][RowStartColumn(v, r - 1) + 40]
  }

  /** The tile number held when column c of display row r is drawn (c = 320: after the row):
      the row-start tile until the first tile boundary, then the tile k columns right of the
      row's start column once k boundaries are crossed. */
  function TileAt(v: Vdp, r: nat, c: nat): (t: U16)
    requires WellFormed(v) && TilemapInBounds(v) && r < Height && c <= Width
    ensures t in v.tilemap[TileRow(v, r)]
  {
    var k := (OffsetX(v) + c) / 8;
    if k == 0 then RowStartTile(v, r) else v.tilemap[TileRow(v, r)][RowStartColumn(v, r) + k]
  }

  /** Every tile drawn lies inside VRAM (its 64 bytes end at or before byte 98304). */
  predicate VramInBounds(v: Vdp)
    requires WellFormed(v) && TilemapInBounds(v)
  {
    forall r, c | 0 <= r < Height && 0 <= c < Width :: TileAt(v, r, c) < VramTiles
  }

  /** `render` does not panic on this state. */
  predicate Renderable(v: Vdp)
  {
    WellFormed(v) && TilemapInBounds(v) && VramInBounds(v)
  }

  /** The RGBA value of display pixel (r, c): byte `tile_y * 8 + tile_x` of the tile drawn there. */
  function Pixel(v: Vdp, r: nat, c: nat): (p: Rgba)
    requires Renderable(v) && r < Height && c < Width
    ensures p.0 in {0, 64, 128, 192} && p.1 in {0, 64, 128, 192} && p.2 in {0, 64, 128, 192}
    ensures p.3 == 0 || p.3 == 0xff
  {
    PxToRgba(v.vram[TileAt(v, r, c) * 64 + ((OffsetY(v) + r) % 8) * 8 + (OffsetX(v) + c) % 8])
  }

  /** The four framebuffer bytes of an RGBA value. */
  function Bytes(p: Rgba): (s: seq<bv8>)
    ensures |s| == 4 && s[0] == p.0 && s[1] == p.1 && s[2] == p.2 && s[3] == p.3
  {
    [p.0, p.1, p.2, p.3]
  }

  /** An image of the display: pixel (r, c) at index r * 320 + c, in raster order. */
  predicate ImageOf(v: Vdp, img: seq<Rgba>)
    requires Renderable(v)
  {
    |img| == FramePixels && forall r, c | 0 <= r < Height && 0 <= c < Width :: img[r * 320 + c] == Pixel(v, r, c)
  }

  /** Every renderable state has its image. */
  lemma TheImage(v: Vdp) returns (img: seq<Rgba>)
    requires Renderable(v)
    ensures ImageOf(v, img)
  {
    img := seq(FramePixels, m requires 0 <= m < FramePixels => Pixel(v, m / 320, m % 320));
    forall r, c | 0 <= r < Height && 0 <= c < Width
      ensures img[r * 320 + c] == Pixel(v, r, c)
    {
      DivModUnique(r * 320 + c, 320, r, c);
    }
  }

  /** The RGBA bytes of the first n pixels of an image. */
  function Flatten(img: seq<Rgba>, n: nat): (s: seq<bv8>)
    requires n <= |img|
    ensures |s| == 4 * n
  {
    if n == 0 then [] else Flatten(img, n - 1) + Bytes(img[n - 1])
  }

  /** Bytes 4 * m .. 4 * m + 3 of the flattened image are the RGBA value of pixel m. */
  lemma {:induction false} FlattenPixel(img: seq<Rgba>, n: nat, m: nat)
    requires m < n <= |img|
    ensures Flatten(img, n)[4 * m..4 * m + 4] == Bytes(img[m])
  {
    if m < n - 1 {
      FlattenPixel(img, n - 1, m);
      assert Flatten(img, n)[..4 * (n - 1)] == Flatten(img, n - 1);
    }
  }

  /** A buffer that starts with the flattened image holds pixel (r, c) at byte 4 * (r * 320 + c). */
  lemma FramebufferPixels(v: Vdp, img: seq<Rgba>, framebuffer: seq<bv8>)
    requires Renderable(v) && ImageOf(v, img)
    requires |framebuffer| >= FrameBytes && framebuffer[..FrameBytes] == Flatten(img, FramePixels)
    ensures forall r, c | 0 <= r < Height && 0 <= c < Width ::
      framebuffer[4 * (r * 320 + c)..4 * (r * 320 + c) + 4] == Bytes(Pixel(v, r, c))
  {
    forall r, c | 0 <= r < Height && 0 <= c < Width
      ensures framebuffer[4 * (r * 320 + c)..4 * (r * 320 + c) + 4] == Bytes(Pixel(v, r, c))
    {
      var m := r * 320 + c;
      FlattenPixel(img, FramePixels, m);
      assert framebuffer[4 * m..4 * m + 4] == framebuffer[..FrameBytes][4 * m..4 * m + 4];
    }
  }

  /** The pixel `render` draws from its counters is the pixel of the specification. */
  lemma PixelFromCounters(v: Vdp, r: nat, c: nat, tile: U16, pixelX: nat, pixelY: nat)
    requires Renderable(v) && r < Height && c < Width && tile == TileAt(v, r, c)
    requires pixelX == (OffsetX(v) + c) % 8 && pixelY == (OffsetY(v) + r) % 8
    ensures tile < VramTiles && PxToRgba(v.vram[tile * 64 + pixelY * 8 + pixelX]) == Pixel(v, r, c)
  {
  }

  /** Moving one column right keeps the tile inside a tile, and reads the next tilemap column at
      a tile boundary. */
  lemma NextColumnTile(v: Vdp, r: nat, c: nat, crossed: nat, pixelX: nat)
    requires WellFormed(v) && TilemapInBounds(v) && r < Height && c < Width
    requires OffsetX(v) + c == 8 * crossed + pixelX && pixelX < 8
    ensures (OffsetX(v) + c) / 8 == crossed && (OffsetX(v) + c) % 8 == pixelX
    ensures pixelX + 1 < 8 ==> TileAt(v, r, c + 1) == TileAt(v, r, c)
    ensures pixelX + 1 == 8 ==>
      crossed + 1 <= 40 && TileAt(v, r, c + 1) == v.tilemap[TileRow(v, r)][RowStartColumn(v, r) + crossed + 1]
  {
    DivModUnique(OffsetX(v) + c, 8, crossed, pixelX);
    if pixelX + 1 < 8 {
      DivModUnique(OffsetX(v) + c + 1, 8, crossed, pixelX + 1);
    } else {
      DivModUnique(OffsetX(v) + c + 1, 8, crossed + 1, 0);
    }
  }

  /** Moving one display row down stays inside a tile row, keeping the tile fetched last in the
      row before, or at a tile-row boundary reads column 0 of the next tilemap row. */
  lemma NextRowTile(v: Vdp, r: nat, crossed: nat, pixelY: nat)
    requires WellFormed(v) && TilemapInBounds(v) && r < Height
    requires OffsetY(v) + r == 8 * crossed + pixelY && pixelY < 8
    ensures (OffsetY(v) + r) % 8 == pixelY && TileRow(v, r) == StartTileY(v) + crossed
    ensures pixelY + 1 == 8 ==> crossed + 1 <= 30
    ensures r + 1 < Height && pixelY + 1 < 8 ==>
      RowStartTile(v, r + 1) == v.tilemap[TileRow(v, r)][RowStartColumn(v, r) + 40]
    ensures r + 1 < Height && pixelY + 1 == 8 ==>
      RowStartTile(v, r + 1) == v.tilemap[StartTileY(v) + crossed + 1][0]
  {
    DivModUnique(OffsetY(v) + r, 8, crossed, pixelY);
    if pixelY + 1 < 8 {
      DivModUnique(OffsetY(v) + r + 1, 8, crossed, pixelY + 1);
    } else {
      DivModUnique(OffsetY(v) + r + 1, 8, crossed + 1, 0);
    }
  }

  /** A fresh VDP draws every pixel opaque black: all tiles are tile 0 and all of VRAM is zero. */
  lemma NewRendersBlack()
    ensures Renderable(New())
    ensures forall r, c | 0 <= r < Height && 0 <= c < Width :: Pixel(New(), r, c) == (0, 0, 0, 0xff)
  {
    var v := New();
    assert forall r, c | 0 <= r < Height && 0 <= c <= Width :: TileAt(v, r, c) == 0;
  }

  /** Without scroll the first row, every row that begins a tile row and every pixel past the
      first tile column read the tile of the tilemap under them. */
  lemma UnscrolledTiles(v: Vdp, r: nat, c: nat)
    requires WellFormed(v) && v.scrollX == 0 && v.scrollY == 0 && r < Height && c < Width
    requires r % 8 == 0 || c >= 8
    ensures TilemapInBounds(v) && TileAt(v, r, c) == v.tilemap[r / 8][c / 8]
  {
  }

  /** ... but inside a tile row (r not a multiple of 8) the first eight pixels of a row still draw
      the tile fetched at the end of the row above, tilemap column 40 (column 0 is never read
      there). */
  lemma UnscrolledStaleTile(v: Vdp, r: nat, c: nat)
    requires WellFormed(v) && v.scrollX == 0 && v.scrollY == 0 && r < Height && c < 8
    requires r % 8 != 0
    ensures TilemapInBounds(v) && TileAt(v, r, c) == v.tilemap[r / 8][40]
  {
  }

  // ------------------------------------------------------------------ render

  /** Copy one RGBA value into four consecutive framebuffer bytes. */
  method WritePixel(framebuffer: array<bv8>, offset: nat, p: Rgba)
    requires offset + 4 <= framebuffer.Length
    modifies framebuffer
    ensures framebuffer[..offset] == old(framebuffer[..offset])
    ensures framebuffer[offset..offset + 4] == Bytes(p)
    ensures framebuffer[offset + 4..] == old(framebuffer[offset + 4..])
  {
    framebuffer[offset] := p.0;
    framebuffer[offset + 1] := p.1;
    framebuffer[offset + 2] := p.2;
    framebuffer[offset + 3] := p.3;
  }

  /** Lines 156-174 of `render`: copy the current tile out of VRAM, pick the current pixel of it
      and write its RGBA value at pixel r * 320 + c of the framebuffer, which then holds one more
      pixel of the image. */
  method DrawPixel(v: Vdp, ghost img: seq<Rgba>, framebuffer: array<bv8>, r: nat, c: nat, tile: U16,
                   pixelX: nat, pixelY: nat, pushed: nat)
    requires Renderable(v) && ImageOf(v, img) && framebuffer.Length >= FrameBytes
    requires r < Height && c < Width && tile == TileAt(v, r, c)
    requires pixelX == (OffsetX(v) + c) % 8 && pixelY == (OffsetY(v) + r) % 8
    requires pushed == r * 320 + c && framebuffer[..4 * pushed] == Flatten(img, pushed)
    modifies framebuffer
    ensures framebuffer[..4 * (pushed + 1)] == Flatten(img, pushed + 1)
    ensures framebuffer[FrameBytes..] == old(framebuffer[FrameBytes..])
  {
    PixelFromCounters(v, r, c, tile, pixelX, pixelY);
    var vramOffset := tile * 64;
    var tileBytes := v.vram[vramOffset..vramOffset + 64];
    var pixel := tileBytes[pixelY * 8 + pixelX];
    assert pixel == v.vram[tile * 64 + pixelY * 8 + pixelX];
    var rgba := PxToRgba(pixel);
    // `(pixel_rows_rendered * DISPLAY_WIDTH + pixel_columns_rendered) * 4`
    var fbOffset := (r * 320 + c) * 4;
    ghost var before := framebuffer[..fbOffset];
    WritePixel(framebuffer, fbOffset, rgba);
    assert framebuffer[..fbOffset + 4] == before + Bytes(rgba);
  }

  /** One pass of the inner loop of `render` (:155-187) over display row r, from the row-start
      values of the counters to the values they have after the row. */
  method RenderRow(v: Vdp, ghost img: seq<Rgba>, framebuffer: array<bv8>, r: nat, tileY: nat,
                   pixelY: nat, pixelX0: nat, tileX0: nat, tile0: U16, pushed0: nat)
    returns (pixelX: nat, tileX: nat, tile: U16, pushed: nat)
    requires Renderable(v) && ImageOf(v, img) && framebuffer.Length >= FrameBytes && r < Height
    requires tileY == TileRow(v, r) && pixelY == (OffsetY(v) + r) % 8 && pixelX0 == OffsetX(v)
    requires tileX0 == RowStartColumn(v, r) && tile0 == RowStartTile(v, r) && pushed0 == r * 320
    requires framebuffer[..4 * pushed0] == Flatten(img, pushed0)
    modifies framebuffer
    ensures pixelX == OffsetX(v) && tileX == RowStartColumn(v, r) + 40 && tile == v.tilemap[tileY][tileX]
    ensures pushed == pushed0 + 320 && framebuffer[..4 * pushed] == Flatten(img, pushed)
    ensures framebuffer[FrameBytes..] == old(framebuffer[FrameBytes..])
  {
    pixelX, tileX, tile, pushed := pixelX0, tileX0, tile0, pushed0;
    ghost var crossed := 0;
    var columns := 0;
    while columns < Width
      invariant columns <= Width && pushed == pushed0 + columns
      invariant OffsetX(v) + columns == 8 * crossed + pixelX && pixelX < 8
      invariant tileX == RowStartColumn(v, r) + crossed && crossed <= 40
      invariant tile == TileAt(v, r, columns)
      invariant framebuffer[..4 * pushed] == Flatten(img, pushed)
      invariant framebuffer[FrameBytes..] == old(framebuffer[FrameBytes..])
    {
      NextColumnTile(v, r, columns, crossed, pixelX);
      DrawPixel(v, img, framebuffer, r, columns, tile, pixelX, pixelY, pushed);
      pushed := pushed + 1;
      pixelX := pixelX + 1;
      columns := columns + 1;
      if pixelX == 8 {
        pixelX := 0;
        crossed := crossed + 1;
        tileX := tileX + 1;
        tile := v.tilemap[tileY][tileX];
      }
    }
  }

  /** `VDP::render` (:123-200) into a framebuffer of at least 320 * 240 * 4 bytes: bytes
      0 .. 307199 receive the RGBA frame pixel by pixel in raster order, the rest are untouched,
      and `pixels_pushed` ends at 76800. */
  method Render(v: Vdp, framebuffer: array<bv8>) returns (pixelsPushed: nat)
    requires Renderable(v) && framebuffer.Length >= FrameBytes
    modifies framebuffer
    ensures pixelsPushed == FramePixels
    ensures forall r, c | 0 <= r < Height && 0 <= c < Width ::
      framebuffer[4 * (r * 320 + c)..4 * (r * 320 + c) + 4] == Bytes(Pixel(v, r, c))
    ensures framebuffer[FrameBytes..] == old(framebuffer[FrameBytes..])
  {
    var tileX := StartTileX(v);
    var tileY := StartTileY(v);
    var pixelX := OffsetX(v);
    var pixelY := OffsetY(v);
    var tile := v.tilemap[tileY][tileX];
    var rows := 0;
    pixelsPushed := 0;
    ghost var rowsCrossed := 0;
    ghost var img := TheImage(v);
    while rows < Height
      invariant rows <= Height && pixelsPushed == rows * 320
      invariant OffsetY(v) + rows == 8 * rowsCrossed + pixelY && pixelY < 8
      invariant tileY == StartTileY(v) + rowsCrossed && rowsCrossed <= 30
      invariant pixelX == OffsetX(v) && tileX == RowStartColumn(v, rows)
      invariant rows < Height ==> tile == RowStartTile(v, rows)
      invariant framebuffer[..4 * pixelsPushed] == Flatten(img, pixelsPushed)
      invariant framebuffer[FrameBytes..] == old(framebuffer[FrameBytes..])
    {
      NextRowTile(v, rows, rowsCrossed, pixelY);
      pixelX, tileX, tile, pixelsPushed :=
        RenderRow(v, img, framebuffer, rows, tileY, pixelY, pixelX, tileX, tile, pixelsPushed);
      rows := rows + 1;
      tileX := 0;
      pixelY := pixelY + 1;
      if pixelY == 8 {
        pixelY := 0;
        rowsCrossed := rowsCrossed + 1;
        tileY := tileY + 1;
        tile := v.tilemap[tileY][tileX];
      }
    }
    FramebufferPixels(v, img, framebuffer[..]);
  }
}
