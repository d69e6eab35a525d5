/** The offline image formatter: packs 8-bit RGB images into the panel's bit-plane frame
    format, decodes such frames again, and generates the two-pixel lookup tables.
    File reading and writing and image decoding are outside the model: an image arrives as
    a grid of RGB pixels, and every operation returns the bytes it would write. */
module Formatter {
  import opened Common

  const Width: nat := 240
  const Height: nat := 320
  /** Bytes per bit plane in one row: the MSB plane comes first, the LSB plane after it. */
  const HalfRow: nat := 120
  const FrameSize: nat := 76800
  const LutSize: nat := 4096

  /** One 8-bit-per-channel pixel of a decoded image. */
  datatype Rgb8 = Rgb8(red: bv8, green: bv8, blue: bv8)

  /** A 2-bit-per-channel colour. */
  datatype Rgb2 = Rgb2(red: bv8, green: bv8, blue: bv8)

  /** A decoded image: `rows[y][x]` is the pixel in column x of row y. */
  datatype Image = Image(width: nat, height: nat, rows: seq<seq<Rgb8>>)

  datatype FormatError =
    | UnexpectedSize     // the explicit size check panics
    | PixelOutOfBounds   // `get_pixel` panics on a coordinate outside the image
    | WrongLength        // the formatted data is not one frame long

  predicate WellFormed(img: Image) {
    |img.rows| == img.height && forall y | 0 <= y < img.height :: |img.rows[y]| == img.width
  }

  /** The image has every pixel the formatting loops read. */
  predicate Covers(img: Image) {
    WellFormed(img) && img.width >= Width && img.height >= Height
  }

  predicate Is2Bit(c: Rgb2) {
    c.red < 4 && c.green < 4 && c.blue < 4
  }

  /** Bit n of b, as 0 or 1. */
  function Bit(b: bv8, n: nat): bv8
    requires n < 8
  {
    (b >> n) & 1
  }

  /** The channels of a 0bBBGGRR pixel. */
  function Channels(p: bv8): (c: Rgb2)
    ensures Is2Bit(c)
    ensures c.red == p & 0x03 && c.green == (p >> 2) & 0x03 && c.blue == (p >> 4) & 0x03
  {
    Rgb2(p & 0x03, (p & 0x0C) >> 2, (p & 0x30) >> 4)
  }

  /** Reassembles 2-bit channels into a 0bBBGGRR pixel. */
  function Pack(c: Rgb2): (p: bv8)
    ensures Is2Bit(c) ==> p < 64
  {
    (c.blue << 4) | (c.green << 2) | c.red
  }

  /** Packing 2-bit channels and splitting them again gives the channels back. */
  lemma ChannelsOfPack(c: Rgb2)
    requires Is2Bit(c)
    ensures Channels(Pack(c)) == c
  {
  }

  /** And splitting a 6-bit pixel and packing it gives the pixel back. */
  lemma PackOfChannels(p: bv8)
    requires p < 64
    ensures Pack(Channels(p)) == p
  {
  }

  /** The linear 8-bit to 2-bit mapping of one channel: its top two bits. */
  function Quantise(c: bv8): (q: bv8)
    ensures q < 4 && q << 6 == c & 0xC0
  {
    c >> 6
  }

  /** A source pixel reduced to 0bBBGGRR. */
  function QuantisePixel(p: Rgb8): (q: bv8)
    ensures q < 64
  {
    Pack(Rgb2(Quantise(p.red), Quantise(p.green), Quantise(p.blue)))
  }

  /** The quantised pixel holds each channel's top two bits in its own field. */
  lemma QuantisePixelChannels(p: Rgb8)
    ensures Channels(QuantisePixel(p)) == Rgb2(Quantise(p.red), Quantise(p.green), Quantise(p.blue))
  {
    ChannelsOfPack(Rgb2(Quantise(p.red), Quantise(p.green), Quantise(p.blue)));
  }

  /** The formatter's `two_pixels_to_msb_lsb`: splits two 0bBBGGRR pixels into a byte of
      channel MSBs and a byte of channel LSBs. Pixel 1 occupies the odd bit positions
      5, 3, 1 (blue, green, red) and pixel 2 the even positions 4, 2, 0. */
  function TwoPixelsToMsbLsb(p1: bv8, p2: bv8): (r: (bv8, bv8))
    ensures r.0 < 64 && r.1 < 64
  {
    var p1red := p1 & 0x03;
    var p1green := (p1 & 0x0C) >> 2;
    var p1blue := (p1 & 0x30) >> 4;
    var p2red := p2 & 0x03;
    var p2green := (p2 & 0x0C) >> 2;
    var p2blue := (p2 & 0x30) >> 4;
    var msb := ((p1blue >> 1) << 5) | ((p1green >> 1) << 3) | ((p1red >> 1) << 1)
      | ((p2blue >> 1) << 4) | ((p2green >> 1) << 2) | (p2red >> 1);
    var lsb := ((p1blue & 1) << 5) | ((p1green & 1) << 3) | ((p1red & 1) << 1)
      | ((p2blue & 1) << 4) | ((p2green & 1) << 2) | (p2red & 1);
    (msb, lsb)
  }

  /** Where each bit of the two pixels lands in the MSB and LSB bytes. */
  lemma TwoPixelsBitLayout(p1: bv8, p2: bv8)
    ensures var r := TwoPixelsToMsbLsb(p1, p2);
      && r.0 < 64 && r.1 < 64
      && Bit(r.0, 5) == Bit(p1, 5) && Bit(r.0, 3) == Bit(p1, 3) && Bit(r.0, 1) == Bit(p1, 1)
      && Bit(r.0, 4) == Bit(p2, 5) && Bit(r.0, 2) == Bit(p2, 3) && Bit(r.0, 0) == Bit(p2, 1)
      && Bit(r.1, 5) == Bit(p1, 4) && Bit(r.1, 3) == Bit(p1, 2) && Bit(r.1, 1) == Bit(p1, 0)
      && Bit(r.1, 4) == Bit(p2, 4) && Bit(r.1, 2) == Bit(p2, 2) && Bit(r.1, 0) == Bit(p2, 0)
  {
  }

  /** The per-pair decode of `unformat_image` and `unformat_image_raw`: the channels of
      pixel 0 are read from the odd bit positions of both bytes, pixel 1 from the even ones;
      the MSB byte gives each channel's high bit and the LSB byte its low bit. */
  function UnformatPair(msb: bv8, lsb: bv8): (r: (Rgb2, Rgb2))
    ensures Is2Bit(r.0) && Is2Bit(r.1)
  {
    var p0red := (msb & 0x02) | ((lsb & 0x02) >> 1);
    var p0green := ((msb & 0x08) >> 2) | ((lsb & 0x08) >> 3);
    var p0blue := ((msb & 0x20) >> 4) | ((lsb & 0x20) >> 5);
    var p1red := ((msb & 0x01) << 1) | (lsb & 0x01);
    var p1green := (((msb & 0x04) >> 2) << 1) | ((lsb & 0x04) >> 2);
    var p1blue := ((msb & 0x10) >> 3) | ((lsb & 0x10) >> 4);
    (Rgb2(p0red, p0green, p0blue), Rgb2(p1red, p1green, p1blue))
  }

  /** Which bits of the two bytes each decoded channel is made of. */
  lemma UnformatPairBitLayout(msb: bv8, lsb: bv8)
    ensures var r := UnformatPair(msb, lsb);
      && r.0.red == (Bit(msb, 1) << 1) | Bit(lsb, 1) && r.1.red == (Bit(msb, 0) << 1) | Bit(lsb, 0)
      && r.0.green == (Bit(msb, 3) << 1) | Bit(lsb, 3) && r.1.green == (Bit(msb, 2) << 1) | Bit(lsb, 2)
      && r.0.blue == (Bit(msb, 5) << 1) | Bit(lsb, 5) && r.1.blue == (Bit(msb, 4) << 1) | Bit(lsb, 4)
  {
  }

  /** The pair decode recovers both pixels' channels from the encoding. */
  lemma UnformatPairInvertsFormat(p1: bv8, p2: bv8)
    ensures UnformatPair(TwoPixelsToMsbLsb(p1, p2).0, TwoPixelsToMsbLsb(p1, p2).1) == (Channels(p1), Channels(p2))
  {
  }

  /** And the encoding recovers the two bytes from the decode, for 6-bit bytes. */
  lemma FormatInvertsUnformatPair(msb: bv8, lsb: bv8)
    requires msb < 64 && lsb < 64
    ensures TwoPixelsToMsbLsb(Pack(UnformatPair(msb, lsb).0), Pack(UnformatPair(msb, lsb).1)) == (msb, lsb)
  {
  }

  /** Scales a 2-bit channel back to 8 bits, as `unformat_image` does (`c << 6`). */
  function Expand(c: Rgb2): (p: Rgb8)
    ensures Is2Bit(c) ==> Quantise(p.red) == c.red && Quantise(p.green) == c.green && Quantise(p.blue) == c.blue
    ensures p.red & 0x3F == 0 && p.green & 0x3F == 0 && p.blue & 0x3F == 0
  {
    Rgb8(c.red << 6, c.green << 6, c.blue << 6)
  }

  // ---------------------------------------------------------------------------------
  // Frame layout

  /** Position in the flattened frame of pair k's byte of bit plane `plane` (0 = MSB,
      1 = LSB) in row y: the MSB bytes fill columns 0..119, the LSB bytes 120..239. */
  function LayoutIndex(y: nat, k: nat, plane: nat): nat {
    y * Width + k + HalfRow * plane
  }

  /** The layout places every (row, pair, plane) at a distinct frame index and reaches
      every index: the frame is written exactly once. */
  lemma LayoutIsBijective()
    ensures forall y, k, plane | 0 <= y < Height && 0 <= k < HalfRow && 0 <= plane < 2 ::
      LayoutIndex(y, k, plane) < FrameSize
      && LayoutIndex(y, k, plane) / Width == y
      && (LayoutIndex(y, k, plane) % Width) % HalfRow == k
      && (LayoutIndex(y, k, plane) % Width) / HalfRow == plane
    ensures forall i | 0 <= i < FrameSize ::
      i / Width < Height && i == LayoutIndex(i / Width, (i % Width) % HalfRow, (i % Width) / HalfRow)
  {
    forall y, k, plane | 0 <= y < Height && 0 <= k < HalfRow && 0 <= plane < 2
      ensures LayoutIndex(y, k, plane) / Width == y && LayoutIndex(y, k, plane) % Width == k + HalfRow * plane
    {
      DivModUnique(LayoutIndex(y, k, plane), Width, y, k + HalfRow * plane);
    }
  }

  lemma FrameCoords(i: nat)
    requires i < FrameSize
    ensures i / Width < Height && i % Width < Width
  {
  }

  /** The MSB and LSB bytes of pair k (pixels 2k and 2k+1) of row y. */
  function PairBytes(img: Image, y: nat, k: nat): (bv8, bv8)
    requires Covers(img) && y < Height && k < HalfRow
  {
    TwoPixelsToMsbLsb(QuantisePixel(img.rows[y][2 * k]), QuantisePixel(img.rows[y][2 * k + 1]))
  }

  /** The byte at column `col` of formatted row y. */
  function FormattedByte(img: Image, y: nat, col: nat): bv8
    requires Covers(img) && y < Height && col < Width
  {
    if col < HalfRow then PairBytes(img, y, col).0 else PairBytes(img, y, col - HalfRow).1
  }

  /** The formatted frame: rows of 240 bytes, flattened as row * 240 + column. */
  function FormattedFrame(img: Image): (f: seq<bv8>)
    requires Covers(img)
    ensures |f| == FrameSize
  {
    seq(FrameSize, i requires 0 <= i < FrameSize => FormattedByte(img, i / Width, i % Width))
  }

  /** `format_image`, after the image has been decoded. The size check only rejects an
      image whose width AND height are both wrong; an image that passes it but is smaller
      than 240x320 makes `get_pixel` panic, and a larger one is cropped to its top-left
      240x320 pixels. No output is written on either panic. */
  method FormatImage(img: Image) returns (r: Result<seq<bv8>, FormatError>)
    requires WellFormed(img)
    ensures r == Err(UnexpectedSize) <==> img.width != Width && img.height != Height
    ensures r.Ok? <==> (img.width == Width || img.height == Height) && Covers(img)
    ensures r.Ok? ==> r.value == FormattedFrame(img)
  {
    if img.width != Width && img.height != Height {
      return Err(UnexpectedSize);
    }
    if img.width < Width || img.height < Height {
      return Err(PixelOutOfBounds);
    }
    var formatted := FormatRows(img);
    var flattened := Flatten(formatted);
    assert flattened == FormattedFrame(img);
    return Ok(flattened);
  }

  /** The row loops of `format_image`: fills the 320x240 grid, row y holding the MSB bytes
      of its pixel pairs in columns 0..119 and their LSB bytes in columns 120..239. */
  method FormatRows(img: Image) returns (formatted: array2<bv8>)
    requires Covers(img)
    ensures fresh(formatted) && formatted.Length0 == Height && formatted.Length1 == Width
    ensures forall y, col | 0 <= y < Height && 0 <= col < Width :: formatted[y, col] == FormattedByte(img, y, col)
  {
    formatted := new bv8[Height, Width]((_, _) => 0);
    var y := 0;
    while y < Height
      invariant 0 <= y <= Height
      invariant forall y', col | 0 <= y' < y && 0 <= col < Width :: formatted[y', col] == FormattedByte(img, y', col)
    {
      var formattedIndex := 0;
      var x := 0;
      while x < Width
        invariant 0 <= formattedIndex <= HalfRow && x == 2 * formattedIndex
        invariant forall y', col | 0 <= y' < y && 0 <= col < Width :: formatted[y', col] == FormattedByte(img, y', col)
        invariant forall col | 0 <= col < Width && (col < formattedIndex || HalfRow <= col < HalfRow + formattedIndex) ::
          formatted[y, col] == FormattedByte(img, y, col)
      {
        var p1 := QuantisePixel(img.rows[y][x]);
        var p2 := QuantisePixel(img.rows[y][x + 1]);
        var bytes := TwoPixelsToMsbLsb(p1, p2);
        formatted[y, formattedIndex] := bytes.0;
        formatted[y, formattedIndex + HalfRow] := bytes.1;
        formattedIndex := formattedIndex + 1;
        x := x + 2;
      }
      y := y + 1;
    }
  }

  /** Copies a 320-row, 240-column grid into a frame in row-major order, as both the
      formatter's final loop and the raw decoder's counter loop do. */
  method Flatten(grid: array2<bv8>) returns (f: seq<bv8>)
    requires grid.Length0 == Height && grid.Length1 == Width
    ensures |f| == FrameSize
    ensures forall i | 0 <= i < FrameSize :: i / Width < Height && f[i] == grid[i / Width, i % Width]
  {
    var flattened := new bv8[FrameSize](_ => 0);
    for rowcount := 0 to Height
      invariant forall i | 0 <= i < rowcount * Width :: i / Width < Height && flattened[i] == grid[i / Width, i % Width]
    {
      for colcount := 0 to Width
        invariant forall i | 0 <= i < rowcount * Width + colcount :: i / Width < Height && flattened[i] == grid[i / Width, i % Width]
      {
        DivModUnique(rowcount * Width + colcount, Width, rowcount, colcount);
        flattened[rowcount * Width + colcount] := grid[rowcount, colcount];
      }
    }
    f := flattened[..];
  }

  // ---------------------------------------------------------------------------------
  // Decoding

  /** Pixel (col, row) of the image `unformat_image` rebuilds from a frame. */
  function UnformattedPixel(f: seq<bv8>, row: nat, col: nat): Rgb8
    requires |f| == FrameSize && row < Height && col < Width
  {
    var pair := UnformatPair(f[row * Width + col / 2], f[row * Width + col / 2 + HalfRow]);
    Expand(if col % 2 == 0 then pair.0 else pair.1)
  }

  /** The decoded image as rows of pixels. */
  function UnformattedImage(f: seq<bv8>): (img: seq<seq<Rgb8>>)
    requires |f| == FrameSize
    ensures |img| == Height && forall row | 0 <= row < Height :: |img[row]| == Width
  {
    seq(Height, row requires 0 <= row < Height =>
      seq(Width, col requires 0 <= col < Width => UnformattedPixel(f, row, col)))
  }

  /** `unformat_image`, up to saving the image buffer to a file. */
  method UnformatImage(formatted: seq<bv8>) returns (r: Result<seq<seq<Rgb8>>, FormatError>)
    ensures r.Err? <==> |formatted| != FrameSize
    ensures r.Ok? ==> r.value == UnformattedImage(formatted)
  {
    if |formatted| != FrameSize {
      return Err(WrongLength);
    }
    var imgbuf := UnformatRows(formatted);
    var rows := seq(Height, row requires 0 <= row < Height reads imgbuf =>
      seq(Width, col requires 0 <= col < Width reads imgbuf => imgbuf[row, col]));
    forall row | 0 <= row < Height
      ensures rows[row] == UnformattedImage(formatted)[row]
    {
    }
    return Ok(rows);
  }

  /** The row loops of `unformat_image`: pixel (col, row) of the buffer is decoded from
      the MSB byte at column col / 2 and the LSB byte 120 columns further on. */
  method UnformatRows(formatted: seq<bv8>) returns (imgbuf: array2<Rgb8>)
    requires |formatted| == FrameSize
    ensures fresh(imgbuf) && imgbuf.Length0 == Height && imgbuf.Length1 == Width
    ensures forall row, col | 0 <= row < Height && 0 <= col < Width :: imgbuf[row, col] == UnformattedPixel(formatted, row, col)
  {
    imgbuf := new Rgb8[Height, Width]((_, _) => Rgb8(0, 0, 0));
    for row := 0 to Height
      invariant forall row', col | 0 <= row' < row && 0 <= col < Width ::
        imgbuf[row', col] == UnformattedPixel(formatted, row', col)
    {
      var formattedCol := 0;
      var col := 0;
      while col < Width
        invariant 0 <= formattedCol <= HalfRow && col == 2 * formattedCol
        invariant forall row', col' | 0 <= row' < row && 0 <= col' < Width ::
          imgbuf[row', col'] == UnformattedPixel(formatted, row', col')
        invariant forall col' | 0 <= col' < col :: imgbuf[row, col'] == UnformattedPixel(formatted, row, col')
      {
        var msb := formatted[row * Width + formattedCol];
        var lsb := formatted[row * Width + (formattedCol + HalfRow)];
        var pair := UnformatPair(msb, lsb);
        imgbuf[row, col] := Expand(pair.0);
        imgbuf[row, col + 1] := Expand(pair.1);
        formattedCol := formattedCol + 1;
        col := col + 2;
      }
    }
  }

  /** Formatting then unformatting keeps the top two bits of every channel of every pixel
      and clears the rest: each channel comes back as `(c >> 6) << 6`. */
  lemma FormatUnformatRoundTrip(img: Image, y: nat, x: nat)
    requires Covers(img) && y < Height && x < Width
    ensures UnformattedImage(FormattedFrame(img))[y][x]
      == Rgb8((img.rows[y][x].red >> 6) << 6, (img.rows[y][x].green >> 6) << 6, (img.rows[y][x].blue >> 6) << 6)
  {
    var f := FormattedFrame(img);
    var k := x / 2;
    DivModUnique(y * Width + k, Width, y, k);
    DivModUnique(y * Width + k + HalfRow, Width, y, k + HalfRow);
    assert f[y * Width + k] == PairBytes(img, y, k).0;
    assert f[y * Width + k + HalfRow] == PairBytes(img, y, k).1;
    var p1, p2 := img.rows[y][2 * k], img.rows[y][2 * k + 1];
    UnformatPairInvertsFormat(QuantisePixel(p1), QuantisePixel(p2));
    QuantisePixelChannels(p1);
    QuantisePixelChannels(p2);
    assert x == 2 * k || x == 2 * k + 1;
  }

  /** The byte `unformat_image_raw` stores for pixel `col` of a row: the OR of the pixel's
      three 2-bit channels, none of them shifted into place. */
  function RawPixel(f: seq<bv8>, row: nat, col: nat): bv8
    requires |f| == FrameSize && row < Height && col < Width
  {
    var pair := UnformatPair(f[row * Width + col / 2], f[row * Width + col / 2 + HalfRow]);
    var c := if col % 2 == 0 then pair.0 else pair.1;
    c.red | c.green | c.blue
  }

  /** `unformat_image_raw`, up to printing and writing the file. */
  method UnformatImageRaw(formatted: seq<bv8>) returns (r: Result<seq<bv8>, FormatError>)
    ensures r.Err? <==> |formatted| != FrameSize
    ensures r.Ok? ==> |r.value| == FrameSize
    ensures r.Ok? ==> forall i | 0 <= i < FrameSize ::
      r.value[i] == RawPixel(formatted, i / Width, i % Width) && r.value[i] <= 3
  {
    if |formatted| != FrameSize {
      return Err(WrongLength);
    }
    var imgbuf := new bv8[Height, Width]((_, _) => 0);
    for row := 0 to Height
      invariant forall row', col | 0 <= row' < row && 0 <= col < Width ::
        imgbuf[row', col] == RawPixel(formatted, row', col)
    {
      var formattedCol := 0;
      var col := 0;
      while col < Width
        invariant 0 <= formattedCol <= HalfRow && col == 2 * formattedCol
        invariant forall row', col' | 0 <= row' < row && 0 <= col' < Width ::
          imgbuf[row', col'] == RawPixel(formatted, row', col')
        invariant forall col' | 0 <= col' < col :: imgbuf[row, col'] == RawPixel(formatted, row, col')
      {
        var msb := formatted[row * Width + formattedCol];
        var lsb := formatted[row * Width + (formattedCol + HalfRow)];
        var pair := UnformatPair(msb, lsb);
        imgbuf[row, col] := pair.0.red | pair.0.green | pair.0.blue;
        imgbuf[row, col + 1] := pair.1.red | pair.1.green | pair.1.blue;
        formattedCol := formattedCol + 1;
        col := col + 2;
      }
    }

    var imgbuf1d := Flatten(imgbuf);
    forall j | 0 <= j < FrameSize
      ensures imgbuf1d[j] == RawPixel(formatted, j / Width, j % Width) && imgbuf1d[j] <= 3
    {
      FrameCoords(j);
      RawPixelIsTwoBit(formatted, j / Width, j % Width);
    }
    return Ok(imgbuf1d);
  }

  lemma RawPixelIsTwoBit(f: seq<bv8>, row: nat, col: nat)
    requires |f| == FrameSize && row < Height && col < Width
    ensures RawPixel(f, row, col) <= 3
  {
    var pair := UnformatPair(f[row * Width + col / 2], f[row * Width + col / 2 + HalfRow]);
    var c := if col % 2 == 0 then pair.0 else pair.1;
    assert Is2Bit(c);
    TwoBitOr(c.red, c.green, c.blue);
  }

  lemma TwoBitOr(a: bv8, b: bv8, c: bv8)
    requires a < 4 && b < 4 && c < 4
    ensures a | b | c <= 3
  {
  }

  /** The raw decode is not an inverse of formatting: a pure red and a pure green pixel
      (both channels at full level) produce the same raw byte. */
  lemma RawDecodeMergesChannels()
    ensures Channels(0x03) != Channels(0x0C)
    ensures var red, green := Channels(0x03), Channels(0x0C);
      red.red | red.green | red.blue == green.red | green.green | green.blue
  {
  }

  // ---------------------------------------------------------------------------------
  // Lookup tables

  /** The table index `(i << 6) | j` of `gen_luts`, computed on 16-bit values. */
  function LutIndex(i: nat, j: nat): (k: nat)
    requires i < 64 && j < 64
    ensures k == i * 64 + j
  {
    var a, b := i as bv16, j as bv16;
    SmallToBv16(i);
    SmallToBv16(j);
    ShiftOrIsMulAdd(a, b);
    (((a << 6) | b) as int)
  }

  lemma SmallToBv16(n: nat)
    requires n < 64
    ensures (n as bv16) as int == n && n as bv16 < 64
  {
  }

  lemma ShiftOrIsMulAdd(a: bv16, b: bv16)
    requires a < 64 && b < 64
    ensures (a << 6) | b == a * 64 + b
    ensures (a * 64 + b) as int == (a as int) * 64 + b as int
  {
  }

  /** The index map of the tables is a bijection from pairs of 6-bit pixels onto 0..4095. */
  lemma LutIndexIsBijective()
    ensures forall i, j | 0 <= i < 64 && 0 <= j < 64 :: LutIndex(i, j) < LutSize
    ensures forall i, j, i', j' | 0 <= i < 64 && 0 <= j < 64 && 0 <= i' < 64 && 0 <= j' < 64 ::
      LutIndex(i, j) == LutIndex(i', j') ==> i == i' && j == j'
    ensures forall k | 0 <= k < LutSize :: k / 64 < 64 && LutIndex(k / 64, k % 64) == k
  {
    forall i, j, i', j' | 0 <= i < 64 && 0 <= j < 64 && 0 <= i' < 64 && 0 <= j' < 64 && LutIndex(i, j) == LutIndex(i', j')
      ensures i == i' && j == j'
    {
      DivModUnique(LutIndex(i, j), 64, i, j);
      DivModUnique(LutIndex(i', j'), 64, i', j');
    }
  }

  /** The MSB and LSB bytes of the 6-bit pixel pair (i, j). */
  function LutEntry(i: nat, j: nat): (bv8, bv8)
    requires i < 64 && j < 64
  {
    TwoPixelsToMsbLsb(i as bv8, j as bv8)
  }

  /** `gen_luts`: entry `(i << 6) | j` of the MSB and LSB tables holds the two bytes that
      `two_pixels_to_msb_lsb(i, j)` produces, for every pair of 6-bit pixels; hence entry k
      holds the bytes of the pair (k / 64, k % 64). */
  method GenLuts() returns (msbLut: seq<bv8>, lsbLut: seq<bv8>)
    ensures |msbLut| == LutSize && |lsbLut| == LutSize
    ensures forall i, j | 0 <= i < 64 && 0 <= j < 64 ::
      msbLut[LutIndex(i, j)] == LutEntry(i, j).0 && lsbLut[LutIndex(i, j)] == LutEntry(i, j).1
    ensures forall k | 0 <= k < LutSize ::
      msbLut[k] == LutEntry(k / 64, k % 64).0 && lsbLut[k] == LutEntry(k / 64, k % 64).1
  {
    var msb := new bv8[LutSize](_ => 0);
    var lsb := new bv8[LutSize](_ => 0);
    for i := 0 to 64
      invariant forall i', j' | 0 <= i' < i && 0 <= j' < 64 ::
        msb[i' * 64 + j'] == LutEntry(i', j').0 && lsb[i' * 64 + j'] == LutEntry(i', j').1
    {
      GenLutRow(msb, lsb, i);
    }
    msbLut, lsbLut := msb[..], lsb[..];
    LutIndexIsBijective();
  }

  /** The inner loop of `gen_luts`: fills the 64 entries whose first pixel is i. */
  method GenLutRow(msb: array<bv8>, lsb: array<bv8>, i: nat)
    requires msb.Length == LutSize && lsb.Length == LutSize && msb != lsb && i < 64
    modifies msb, lsb
    ensures forall j | 0 <= j < 64 :: msb[i * 64 + j] == LutEntry(i, j).0 && lsb[i * 64 + j] == LutEntry(i, j).1
    ensures forall k | 0 <= k < LutSize && !(i * 64 <= k < i * 64 + 64) :: msb[k] == old(msb[k]) && lsb[k] == old(lsb[k])
  {
    for j := 0 to 64
      invariant forall j' | 0 <= j' < j :: msb[i * 64 + j'] == LutEntry(i, j').0 && lsb[i * 64 + j'] == LutEntry(i, j').1
      invariant forall k | 0 <= k < LutSize && !(i * 64 <= k < i * 64 + j) :: msb[k] == old(msb[k]) && lsb[k] == old(lsb[k])
    {
      var v := LutEntry(i, j);
      var idx := LutIndex(i, j);
      msb[idx] := v.0;
      lsb[idx] := v.1;
    }
  }
}
