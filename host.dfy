/** The USB display host: the `RgbPixel` colour conversions, the integer Floyd-Steinberg
    dither, the host's own copy of the pixel packer and frame layout, and the length prefix
    put in front of every compressed frame. Video decoding, compression and the USB transfer
    are outside the model. */
module Host {
  import opened Common
  import Formatter

  const Width: nat := 240
  const Height: nat := 320
  const HalfRow: nat := 120
  /** `FRAMESIZE`: pixels per frame, and bytes per formatted frame. */
  const FrameSize: nat := 76800

  const I32Min: int := -0x8000_0000
  const I32Max: int := 0x7FFF_FFFF

  /** A pixel with one signed 32-bit integer per channel. */
  datatype RgbPixel = RgbPixel(red: int, green: int, blue: int)

  predicate InI32(v: int) {
    I32Min <= v <= I32Max
  }

  /** Every channel is an 8-bit value, as for every pixel built by the constructors below. */
  predicate ValidPixel(p: RgbPixel) {
    0 <= p.red < 256 && 0 <= p.green < 256 && 0 <= p.blue < 256
  }

  /** One of the four 8-bit levels a 2-bit channel is displayed as. */
  predicate IsLevel(c: int) {
    c == 0 || c == 85 || c == 170 || c == 255
  }

  predicate Quantised(p: RgbPixel) {
    IsLevel(p.red) && IsLevel(p.green) && IsLevel(p.blue)
  }

  /** Rust's `as u8` on an integer: its low eight bits. */
  function AsU8(x: int): (b: Byte)
    ensures 0 <= x < 256 ==> b == x
  {
    x % 256
  }

  /** Rust's `as i8` on an integer: its low eight bits read as two's complement. */
  function AsI8(x: int): (v: int)
    ensures -128 <= v < 128
    ensures -128 <= x < 128 ==> v == x
  {
    (x + 128) % 256 - 128
  }

  /** The result of an `i32` operation, wrapping around on overflow as a release build
      does; a debug build panics instead. Neither happens on the dither's own operands, whose
      products stay far inside `i32` (`DiffuseChannelExact`), so the wrap is only there to give
      the function a value on every input, not behaviour the source relies on. */
  function WrapI32(v: int): (w: int)
    ensures InI32(w)
    ensures InI32(v) ==> w == v
  {
    (v - I32Min) % U32Range + I32Min
  }

  function Abs(a: int): nat {
    if a < 0 then -a else a
  }

  /** Rust's integer `/`, which rounds toward zero (Dafny's rounds toward minus infinity
      for a positive divisor). */
  function TruncDiv(a: int, b: int): (q: int)
    requires b > 0
    ensures Abs(q) == Abs(a) / b
    ensures q > 0 ==> a > 0
    ensures q < 0 ==> a < 0
  {
    if a >= 0 then a / b else -((-a) / b)
  }

  /** `u8::saturating_add_signed`: the sum, clamped to 0..255. */
  function SaturatingAddSigned(u: Byte, s: int): (r: Byte)
    requires -128 <= s < 128
    ensures 0 <= u + s < 256 ==> r == u + s
    ensures u + s < 0 ==> r == 0
    ensures u + s >= 256 ==> r == 255
  {
    if u + s < 0 then 0 else if u + s > 255 then 255 else u + s
  }

  /** `RgbPixel::new`. */
  function New(): (p: RgbPixel)
    ensures ValidPixel(p) && Quantised(p) && To6bppPixel(p) == 0
  {
    RgbPixel(0, 0, 0)
  }

  /** `RgbPixel::from_abgr32_pixel`: red in the low byte, then green, then blue; the alpha
      byte is dropped. */
  function FromAbgr32Pixel(p: U32): (r: RgbPixel)
    ensures ValidPixel(r)
  {
    RgbPixel(p % 256, (p / 256) % 256, (p / 65536) % 256)
  }

  /** A pixel read little-endian from its R, G, B, A bytes comes back as those R, G, B. */
  lemma FromAbgr32PixelOfBytes(r: Byte, g: Byte, b: Byte, a: Byte)
    ensures FromAbgr32Pixel(Le32(r, g, b, a)) == RgbPixel(r, g, b)
  {
    var v := Le32(r, g, b, a);
    assert v / 65536 == (v / 65536) % 256 + 256 * (v / 16777216);
  }

  /** `RgbPixel::from_rgba_u8s`: the alpha byte is ignored. */
  function FromRgbaU8s(r: Byte, g: Byte, b: Byte, a: Byte): (p: RgbPixel)
    ensures ValidPixel(p)
    ensures ToU8Slice(p) == [r, g, b]
  {
    RgbPixel(r, g, b)
  }

  /** c is the value of the top two bits of the 8-bit channel v. */
  predicate TopBits(c: int, v: int) {
    64 * c <= v < 64 * c + 64
  }

  /** `to_2bpc_color_array`: each channel arithmetically shifted right by six (a floor
      division by 64) and truncated to a byte. */
  function To2bpcColorArray(p: RgbPixel): (c: seq<Byte>)
    ensures |c| == 3
    ensures ValidPixel(p) ==> c[0] < 4 && c[1] < 4 && c[2] < 4
    ensures ValidPixel(p) ==> TopBits(c[0], p.red) && TopBits(c[1], p.green) && TopBits(c[2], p.blue)
  {
    [AsU8(p.red / 64), AsU8(p.green / 64), AsU8(p.blue / 64)]
  }

  /** `color_2bpc_to_8bpc`: the four 2-bit levels spread evenly over 0..255; any other
      value is treated as full intensity. */
  function Color2bpcTo8bpc(color2bit: Byte): (v: int)
    ensures color2bit < 4 ==> v == 85 * color2bit
    ensures color2bit >= 4 ==> v == 255
    ensures IsLevel(v)
  {
    if color2bit == 0 then 0
    else if color2bit == 1 then 85
    else if color2bit == 2 then 170
    else 255
  }

  /** Expanding a 2-bit level and reducing it again gives the level back. */
  lemma LevelRoundTrip(c: Byte)
    requires c < 4
    ensures To2bpcColorArray(RgbPixel(Color2bpcTo8bpc(c), 0, 0))[0] == c
  {
    assert 64 * c <= 85 * c < 64 * c + 64;
    DivModUnique(85 * c, 64, c, 85 * c - 64 * c);
  }

  /** `to_2bpc_color_full_range`: the pixel reduced to 2 bits per channel and expanded
      back to the 8-bit levels. */
  function To2bpcColorFullRange(p: RgbPixel): (q: RgbPixel)
    ensures ValidPixel(q) && Quantised(q)
    ensures ValidPixel(p) ==> q.red == 85 * (p.red / 64) && q.green == 85 * (p.green / 64) && q.blue == 85 * (p.blue / 64)
  {
    var c := To2bpcColorArray(p);
    RgbPixel(Color2bpcTo8bpc(c[0]), Color2bpcTo8bpc(c[1]), Color2bpcTo8bpc(c[2]))
  }

  /** Reducing a pixel that is already reduced changes nothing. */
  lemma {:induction false} FullRangeIdempotent(p: RgbPixel)
    ensures To2bpcColorFullRange(To2bpcColorFullRange(p)) == To2bpcColorFullRange(p)
  {
    var q := To2bpcColorFullRange(p);
    LevelFixed(q.red);
    LevelFixed(q.green);
    LevelFixed(q.blue);
  }

  /** A displayable level is its own reduction. */
  lemma LevelFixed(c: int)
    requires IsLevel(c)
    ensures Color2bpcTo8bpc(AsU8(c / 64)) == c
  {
    if c == 85 {
      DivModUnique(85, 64, 1, 21);
    } else if c == 170 {
      DivModUnique(170, 64, 2, 42);
    } else if c == 255 {
      DivModUnique(255, 64, 3, 63);
    }
  }

  /** A quantised pixel is its own reduction. */
  lemma QuantisedIsFixed(p: RgbPixel)
    requires Quantised(p)
    ensures To2bpcColorFullRange(p) == p
  {
    LevelFixed(p.red);
    LevelFixed(p.green);
    LevelFixed(p.blue);
  }

  /** The quantisation error of an 8-bit channel is at most 63 either way. */
  lemma QuantisationErrorBound(p: RgbPixel)
    requires ValidPixel(p)
    ensures var q := To2bpcColorFullRange(p);
      -63 <= p.red - q.red <= 63 && -63 <= p.green - q.green <= 63 && -63 <= p.blue - q.blue <= 63
  {
    ChannelErrorBound(p.red);
    ChannelErrorBound(p.green);
    ChannelErrorBound(p.blue);
  }

  lemma ChannelErrorBound(c: int)
    requires 0 <= c < 256
    ensures -63 <= c - 85 * (c / 64) <= 63
  {
    var k := c / 64;
    assert 64 * k <= c < 64 * k + 64;
    assert 0 <= k < 4;
  }

  /** `to_6bpp_pixel`: the three 2-bit channels packed as 0bBBGGRR. */
  function To6bppPixel(p: RgbPixel): (v: bv8)
    ensures ValidPixel(p) ==> v < 64
  {
    var px := To2bpcColorArray(p);
    (px[0] as bv8) | ((px[1] as bv8) << 2) | ((px[2] as bv8) << 4)
  }

  /** For an 8-bit pixel the packed value fits in 6 bits and holds red in bits 0-1, green
      in bits 2-3 and blue in bits 4-5: it is exactly the formatter's quantised pixel. */
  lemma To6bppPixelLayout(p: RgbPixel)
    requires ValidPixel(p)
    ensures var px := To2bpcColorArray(p);
      && To6bppPixel(p) < 64
      && To6bppPixel(p) == Formatter.Pack(Formatter.Rgb2(px[0] as bv8, px[1] as bv8, px[2] as bv8))
      && Formatter.Channels(To6bppPixel(p)) == Formatter.Rgb2(px[0] as bv8, px[1] as bv8, px[2] as bv8)
  {
    var px := To2bpcColorArray(p);
    var c := Formatter.Rgb2(px[0] as bv8, px[1] as bv8, px[2] as bv8);
    SmallByte(px[0]);
    SmallByte(px[1]);
    SmallByte(px[2]);
    PackIsOrOfShifts(c);
    Formatter.ChannelsOfPack(c);
  }

  lemma SmallByte(b: Byte)
    requires b < 4
    ensures b as bv8 < 4
  {
  }

  lemma PackIsOrOfShifts(c: Formatter.Rgb2)
    requires Formatter.Is2Bit(c)
    ensures c.red | (c.green << 2) | (c.blue << 4) == Formatter.Pack(c)
  {
  }

  /** `to_u8_slice`: each channel truncated to a byte. */
  function ToU8Slice(p: RgbPixel): (b: seq<Byte>)
    ensures |b| == 3
    ensures ValidPixel(p) ==> RgbPixel(b[0], b[1], b[2]) == p
  {
    [AsU8(p.red), AsU8(p.green), AsU8(p.blue)]
  }

  // ---------------------------------------------------------------------------------
  // Error diffusion

  /** One channel of `rgb8_quant_error`: `c.saturating_add_signed((d * q / 16) as i8)`. */
  function DiffuseChannel(c: Byte, d: int, q: int): (r: Byte)
  {
    SaturatingAddSigned(c, AsI8(TruncDiv(WrapI32(d * q), 16)))
  }

  /** A zero error leaves the channel alone. While the weighted error stays below 2048 in
      magnitude the `as i8` cast keeps its sign, so a positive error never darkens the channel
      and a negative one never brightens it. */
  lemma DiffuseChannelSign(c: Byte, d: int, q: int)
    ensures d == 0 ==> DiffuseChannel(c, d, q) == c
    ensures 0 <= d * q < 2048 ==> c <= DiffuseChannel(c, d, q)
    ensures -2048 < d * q <= 0 ==> DiffuseChannel(c, d, q) <= c
  {
  }

  /** `rgb8_quant_error`: adds `quantNum/16` of the error `difference` to each channel of
      the pixel's bytes, saturating at 0 and 255. */
  function Rgb8QuantError(pixel: RgbPixel, difference: seq<int>, quantNum: int): (r: RgbPixel)
    requires |difference| == 3
    ensures ValidPixel(r)
  {
    var b := ToU8Slice(pixel);
    RgbPixel(DiffuseChannel(b[0], difference[0], quantNum), DiffuseChannel(b[1], difference[1], quantNum),
      DiffuseChannel(b[2], difference[2], quantNum))
  }

  /** v clamped to 0..255. */
  function Clamp(v: int): Byte {
    if v < 0 then 0 else if v > 255 then 255 else v
  }

  /** With an error of at most 63 and a weight below 16, `d * q` cannot overflow and
      `d * q / 16` fits in an `i8`: neither cast loses anything and the channel is the
      clamped exact sum. */
  lemma DiffuseChannelExact(c: Byte, d: int, q: int)
    requires -63 <= d <= 63 && 0 <= q < 16
    ensures InI32(d * q) && -128 <= TruncDiv(d * q, 16) < 128
    ensures DiffuseChannel(c, d, q) == Clamp(c + TruncDiv(d * q, 16))
  {
    assert -1008 <= d * q <= 1008;
  }

  /** Zero error leaves an 8-bit pixel as it is. */
  lemma QuantErrorOfZero(p: RgbPixel, q: int)
    requires ValidPixel(p)
    ensures Rgb8QuantError(p, [0, 0, 0], q) == p
  {
    assert 0 * q == 0;
  }

  /** Every pixel of the frame region is an 8-bit pixel. */
  predicate ValidFrame(s: seq<RgbPixel>) {
    |s| >= FrameSize && forall j | 0 <= j < FrameSize :: ValidPixel(s[j])
  }

  /** The error left at a pixel after reducing it, computed in `i32`. */
  function QuantError(p: RgbPixel): (e: seq<int>)
    ensures |e| == 3
  {
    var reduced := To2bpcColorFullRange(p);
    [WrapI32(p.red - reduced.red), WrapI32(p.green - reduced.green), WrapI32(p.blue - reduced.blue)]
  }

  /** Reducing an 8-bit pixel leaves an error of at most 63 per channel, and a quantised
      pixel leaves none. */
  lemma QuantErrorBound(p: RgbPixel)
    requires ValidPixel(p)
    ensures var e := QuantError(p);
      -63 <= e[0] <= 63 && -63 <= e[1] <= 63 && -63 <= e[2] <= 63
    ensures Quantised(p) ==> QuantError(p) == [0, 0, 0]
  {
    QuantisationErrorBound(p);
    if Quantised(p) {
      QuantisedIsFixed(p);
    }
  }

  /** One diffusion write: pixel j receives q/16 of the error e. */
  function Spread(s: seq<RgbPixel>, j: nat, e: seq<int>, q: int): (r: seq<RgbPixel>)
    requires j < |s| && |e| == 3
    ensures |r| == |s|
  {
    s[j := Rgb8QuantError(s[j], e, q)]
  }

  /** Index of pixel (x, y) in the row-major, 240 pixels wide frame. */
  function Index(x: nat, y: nat): nat {
    y * 240 + x
  }

  /** Pixel (x, y) lies in the frame, and so do the neighbours it diffuses into. */
  lemma InFrame(x: nat, y: nat)
    requires x < Width && y < Height
    ensures Index(x, y) < FrameSize
    ensures y + 1 < Height ==> Index(x, y) + Width < FrameSize
    ensures x + 1 < Width && y + 1 < Height ==> Index(x, y) + 241 < FrameSize
  {
  }

  /** One tap of the error-diffusion kernel: the neighbour `offset` pixels further on in
      raster order receives `weight`/16 of the error when it lies inside the image. */
  datatype Tap = Tap(offset: nat, weight: int, inside: bool)

  /** The Floyd-Steinberg kernel at pixel (x, y): right 7/16, lower left 3/16, lower 5/16
      and lower right 1/16, in the order the loop body writes them. */
  function Kernel(x: nat, y: nat): (k: seq<Tap>)
    requires x < Width && y < Height
    ensures |k| == 4 && forall t | 0 <= t < 4 :: k[t].offset > 0
    ensures forall t | 0 <= t < 4 :: k[t].inside ==> Index(x, y) + k[t].offset < FrameSize
  {
    InFrame(x, y);
    [Tap(1, 7, x + 1 < Width), Tap(239, 3, x != 0 && y + 1 < Height), Tap(240, 5, y + 1 < Height),
      Tap(241, 1, x + 1 < Width && y + 1 < Height)]
  }

  /** Every inside tap of the kernel ks at pixel i addresses one of n pixels. */
  predicate TapsFit(ks: seq<Tap>, i: nat, n: nat) {
    forall t | 0 <= t < |ks| :: ks[t].inside ==> i + ks[t].offset < n
  }

  /** Whether pixel j is an inside tap, from the k-th on, of the kernel ks at pixel i. */
  predicate Tapped(ks: seq<Tap>, k: nat, i: nat, j: nat) {
    exists t | k <= t < |ks| :: ks[t].inside && j == i + ks[t].offset
  }

  /** The writes of the kernel ks at pixel i with error e, from the k-th tap on, one tap
      after another. */
  function Diffuse(s: seq<RgbPixel>, i: nat, e: seq<int>, ks: seq<Tap>, k: nat): (r: seq<RgbPixel>)
    requires |e| == 3 && TapsFit(ks, i, |s|)
    ensures |r| == |s|
    decreases |ks| - k
  {
    if k >= |ks| then s
    else
      var s' := if ks[k].inside then Spread(s, i + ks[k].offset, e, ks[k].weight) else s;
      Diffuse(s', i, e, ks, k + 1)
  }

  /** Diffusion writes only the tapped pixels, and writes 8-bit pixels there. */
  lemma {:induction false} DiffuseEffect(s: seq<RgbPixel>, i: nat, e: seq<int>, ks: seq<Tap>, k: nat)
    requires |e| == 3 && TapsFit(ks, i, |s|)
    ensures var r := Diffuse(s, i, e, ks, k);
      && (forall j | 0 <= j < |s| && !Tapped(ks, k, i, j) :: r[j] == s[j])
      && (forall j | 0 <= j < |s| :: r[j] == s[j] || ValidPixel(r[j]))
    decreases |ks| - k
  {
    if k < |ks| {
      var s' := if ks[k].inside then Spread(s, i + ks[k].offset, e, ks[k].weight) else s;
      DiffuseEffect(s', i, e, ks, k + 1);
      forall j | 0 <= j < |s| && !Tapped(ks, k, i, j) ensures Diffuse(s, i, e, ks, k)[j] == s[j] {
        assert !(ks[k].inside && j == i + ks[k].offset);
        assert !Tapped(ks, k + 1, i, j);
      }
    }
  }

  /** Diffusing a zero error into 8-bit pixels changes nothing. */
  lemma {:induction false} DiffuseZero(s: seq<RgbPixel>, i: nat, ks: seq<Tap>, k: nat)
    requires TapsFit(ks, i, |s|)
    requires forall t | 0 <= t < |ks| :: ks[t].inside ==> ValidPixel(s[i + ks[t].offset])
    ensures Diffuse(s, i, [0, 0, 0], ks, k) == s
    decreases |ks| - k
  {
    if k < |ks| {
      var s' := if ks[k].inside then Spread(s, i + ks[k].offset, [0, 0, 0], ks[k].weight) else s;
      if ks[k].inside {
        QuantErrorOfZero(s[i + ks[k].offset], ks[k].weight);
        assert s' == s;
      }
      DiffuseZero(s, i, ks, k + 1);
    }
  }

  /** One iteration of the dithering loop, at pixel i = y * 240 + x: the pixel is reduced,
      and its error is diffused by the kernel at (x, y). */
  function DitherStep(s: seq<RgbPixel>, x: nat, y: nat): (r: seq<RgbPixel>)
    requires |s| >= FrameSize && x < Width && y < Height
    ensures |r| == |s|
  {
    var i := Index(x, y);
    InFrame(x, y);
    Diffuse(s[i := To2bpcColorFullRange(s[i])], i, QuantError(s[i]), Kernel(x, y), 0)
  }

  /** An iteration leaves pixel i quantised, changes only pixel i and its right,
      lower-left, lower and lower-right neighbours (so nothing before i in raster order and
      nothing past the frame), and every pixel it changes is an 8-bit pixel. */
  lemma DitherStepEffect(s: seq<RgbPixel>, x: nat, y: nat)
    requires |s| >= FrameSize && x < Width && y < Height
    ensures var i, r := Index(x, y), DitherStep(s, x, y);
      && Quantised(r[i])
      && (forall j | 0 <= j < |s| && j != i && j != i + 1 && j != i + 239 && j != i + 240 && j != i + 241 :: r[j] == s[j])
      && (forall j | FrameSize <= j < |s| :: r[j] == s[j])
      && (forall j | 0 <= j < |s| :: r[j] == s[j] || ValidPixel(r[j]))
  {
    var i := Index(x, y);
    InFrame(x, y);
    var ks := Kernel(x, y);
    var s1 := s[i := To2bpcColorFullRange(s[i])];
    DiffuseEffect(s1, i, QuantError(s[i]), ks, 0);
    assert !Tapped(ks, 0, i, i);
    forall j | 0 <= j < |s| && j != i && j != i + 1 && j != i + 239 && j != i + 240 && j != i + 241
      ensures !Tapped(ks, 0, i, j)
    {
    }
    forall j | FrameSize <= j < |s| ensures !Tapped(ks, 0, i, j) {
    }
  }

  /** An iteration at a pixel that is already quantised changes nothing, as long as the
      neighbours it diffuses into are 8-bit pixels. */
  lemma DitherStepFixesQuantised(s: seq<RgbPixel>, x: nat, y: nat)
    requires ValidFrame(s) && x < Width && y < Height
    requires Quantised(s[Index(x, y)])
    ensures DitherStep(s, x, y) == s
  {
    var i := Index(x, y);
    InFrame(x, y);
    QuantisedIsFixed(s[i]);
    QuantErrorBound(s[i]);
    assert s[i := s[i]] == s;
    DiffuseZero(s, i, Kernel(x, y), 0);
  }

  /** The image after the inner loop has visited pixels 0 .. x - 1 of row y. */
  function DitherRow(s: seq<RgbPixel>, y: nat, x: nat): (r: seq<RgbPixel>)
    requires |s| >= FrameSize && y < Height && x <= Width
    ensures |r| == |s|
  {
    if x == 0 then s else DitherStep(DitherRow(s, y, x - 1), x - 1, y)
  }

  /** The image after the outer loop has visited rows 0 .. y - 1. */
  function DitherRows(s: seq<RgbPixel>, y: nat): (r: seq<RgbPixel>)
    requires |s| >= FrameSize && y <= Height
    ensures |r| == |s|
  {
    if y == 0 then s else DitherRow(DitherRows(s, y - 1), y - 1, Width)
  }

  /** The dithered image: every row visited. */
  function Dithered(s: seq<RgbPixel>): (r: seq<RgbPixel>)
    requires |s| >= FrameSize
    ensures |r| == |s|
  {
    DitherRows(s, Height)
  }

  /** What the dither has done once it reaches pixel n: the pixels before n are quantised,
      the pixels from n + 241 on and past the frame are untouched, and every changed pixel
      is an 8-bit pixel. */
  ghost predicate Progress(s: seq<RgbPixel>, r: seq<RgbPixel>, n: nat) {
    && |r| == |s| >= FrameSize
    && (forall j | 0 <= j < n && j < |r| :: Quantised(r[j]))
    && (forall j | n + 241 <= j < |s| :: r[j] == s[j])
    && (forall j | FrameSize <= j < |s| :: r[j] == s[j])
    && (forall j | 0 <= j < |s| :: r[j] == s[j] || ValidPixel(r[j]))
  }

  /** Each iteration of the inner loop extends the progress by one pixel. */
  lemma StepProgress(s: seq<RgbPixel>, t: seq<RgbPixel>, x: nat, y: nat)
    requires |t| >= FrameSize && x < Width && y < Height
    requires Progress(s, t, Index(x, y))
    ensures Progress(s, DitherStep(t, x, y), Index(x, y) + 1)
  {
    DitherStepEffect(t, x, y);
  }

  /** Progress along row y up to column x. */
  lemma {:induction false} RowProgress(s: seq<RgbPixel>, t: seq<RgbPixel>, y: nat, x: nat)
    requires |t| >= FrameSize && y < Height && x <= Width
    requires Progress(s, t, Index(0, y))
    ensures Progress(s, DitherRow(t, y, x), Index(0, y) + x)
  {
    if x > 0 {
      RowProgress(s, t, y, x - 1);
      StepProgress(s, DitherRow(t, y, x - 1), x - 1, y);
    }
  }

  /** Progress over rows 0 .. y - 1. */
  lemma {:induction false} RowsProgress(s: seq<RgbPixel>, y: nat)
    requires |s| >= FrameSize && y <= Height
    ensures Progress(s, DitherRows(s, y), Index(0, y))
  {
    if y > 0 {
      RowsProgress(s, y - 1);
      RowProgress(s, DitherRows(s, y - 1), y - 1, Width);
    }
  }

  /** The dithered image has every frame pixel quantised, keeps the pixels past the frame,
      and keeps every pixel 8-bit when the input was: the error at each visited pixel is
      then at most 63, so no `i32` or `i8` conversion ever wraps. */
  lemma DitherResult(s: seq<RgbPixel>)
    requires |s| >= FrameSize
    ensures var r := Dithered(s);
      && (forall j | 0 <= j < FrameSize :: Quantised(r[j]))
      && (forall j | FrameSize <= j < |s| :: r[j] == s[j])
      && (ValidFrame(s) ==> ValidFrame(r))
  {
    RowsProgress(s, Height);
  }

  /** An image whose pixels are all quantised is its own dither: row by row. */
  lemma {:induction false} RowFixesQuantised(s: seq<RgbPixel>, y: nat, x: nat)
    requires |s| >= FrameSize && y < Height && x <= Width
    requires forall j | 0 <= j < FrameSize :: Quantised(s[j])
    ensures DitherRow(s, y, x) == s
  {
    if x > 0 {
      RowFixesQuantised(s, y, x - 1);
      assert ValidFrame(s);
      InFrame(x - 1, y);
      DitherStepFixesQuantised(s, x - 1, y);
    }
  }

  /** An image whose pixels are all quantised is its own dither. */
  lemma {:induction false} DitherFixesQuantised(s: seq<RgbPixel>, y: nat)
    requires |s| >= FrameSize && y <= Height
    requires forall j | 0 <= j < FrameSize :: Quantised(s[j])
    ensures DitherRows(s, y) == s
  {
    if y > 0 {
      DitherFixesQuantised(s, y - 1);
      RowFixesQuantised(s, y - 1, Width);
    }
  }

  /** `floyd_steinberg_dither`: dithers a copy of the pixels in raster order over the
      240 x 320 frame, giving the dithered image (whose properties `DitherResult` and
      `DitherFixesQuantised` state). */
  method FloydSteinbergDither(input: seq<RgbPixel>) returns (dithered: seq<RgbPixel>)
    requires |input| >= FrameSize
    ensures dithered == Dithered(input)
  {
    var image := new RgbPixel[|input|](j requires 0 <= j < |input| => input[j]);
    assert image[..] == input;
    for y := 0 to Height
      invariant image[..] == DitherRows(input, y)
    {
      DitherRowPixels(image, y);
    }
    dithered := image[..];
  }

  /** The inner loop of the dithering: the pixels of row y, left to right. */
  method DitherRowPixels(image: array<RgbPixel>, y: nat)
    requires image.Length >= FrameSize && y < Height
    modifies image
    ensures image[..] == DitherRow(old(image[..]), y, Width)
  {
    ghost var t := image[..];
    for x := 0 to Width
      invariant image[..] == DitherRow(t, y, x)
    {
      DitherPixel(image, x, y);
    }
  }

  /** The body of the dithering loops at pixel (x, y). */
  method DitherPixel(image: array<RgbPixel>, x: nat, y: nat)
    requires image.Length >= FrameSize && x < Width && y < Height
    modifies image
    ensures image[..] == DitherStep(old(image[..]), x, y)
  {
    var i := y * Width + x;
    assert i == Index(x, y);
    InFrame(x, y);
    ghost var s := image[..];
    ghost var ks := Kernel(x, y);
    var pixel := image[i];
    var pixelColorReduced := To2bpcColorFullRange(pixel);
    var quantError := QuantError(pixel);
    image[i] := pixelColorReduced;
    assert image[..] == s[i := pixelColorReduced];
    ghost var goal := Diffuse(image[..], i, quantError, ks, 0);
    if x + 1 < Width {
      image[i + 1] := Rgb8QuantError(image[i + 1], quantError, 7);
    }
    assert goal == Diffuse(image[..], i, quantError, ks, 1);
    if x != 0 && y + 1 < Height {
      image[i + 239] := Rgb8QuantError(image[i + 239], quantError, 3);
    }
    assert goal == Diffuse(image[..], i, quantError, ks, 2);
    if y + 1 < Height {
      image[i + 240] := Rgb8QuantError(image[i + 240], quantError, 5);
    }
    assert goal == Diffuse(image[..], i, quantError, ks, 3);
    if x + 1 < Width && y + 1 < Height {
      image[i + 241] := Rgb8QuantError(image[i + 241], quantError, 1);
    }
    assert goal == Diffuse(image[..], i, quantError, ks, 4);
  }

  // ---------------------------------------------------------------------------------
  // Host-side packing and layout

  /** The host's `two_pixels_to_msb_lsb`: unlike the formatter's it puts pixel 2 in the
      odd bit positions 5, 3, 1 and pixel 1 in the even positions 4, 2, 0. */
  function TwoPixelsToMsbLsb(p1: bv8, p2: bv8): (r: (bv8, bv8))
    ensures r.0 < 64 && r.1 < 64
  {
    var p1red := p1 & 0x03;
    var p1green := (p1 & 0x0C) >> 2;
    var p1blue := (p1 & 0x30) >> 4;
    var p2red := p2 & 0x03;
    var p2green := (p2 & 0x0C) >> 2;
    var p2blue := (p2 & 0x30) >> 4;
    var msb := ((p2blue >> 1) << 5) | ((p2green >> 1) << 3) | ((p2red >> 1) << 1)
      | ((p1blue >> 1) << 4) | ((p1green >> 1) << 2) | (p1red >> 1);
    var lsb := ((p2blue & 1) << 5) | ((p2green & 1) << 3) | ((p2red & 1) << 1)
      | ((p1blue & 1) << 4) | ((p1green & 1) << 2) | (p1red & 1);
    (msb, lsb)
  }

  /** The host packer is the formatter's with the pixels swapped, so both bytes fit in
      6 bits. */
  lemma TwoPixelsSwapsFormatter(p1: bv8, p2: bv8)
    ensures TwoPixelsToMsbLsb(p1, p2) == Formatter.TwoPixelsToMsbLsb(p2, p1)
    ensures TwoPixelsToMsbLsb(p1, p2).0 < 64 && TwoPixelsToMsbLsb(p1, p2).1 < 64
  {
    Formatter.TwoPixelsBitLayout(p2, p1);
  }

  /** The MSB and LSB bytes of pixels 2k and 2k + 1 of row y. */
  function PairBytes(img: seq<RgbPixel>, y: nat, k: nat): (bv8, bv8)
    requires |img| >= FrameSize && y < Height && k < HalfRow
  {
    TwoPixelsToMsbLsb(To6bppPixel(img[y * Width + 2 * k]), To6bppPixel(img[y * Width + 2 * k + 1]))
  }

  /** Decoding a host-packed pair with the formatter's decoder returns the two pixels in
      swapped order: the two tools disagree on which pixel of a pair is the left one. */
  lemma FormatterDecodeSwapsHostPairs(p1: bv8, p2: bv8)
    ensures Formatter.UnformatPair(TwoPixelsToMsbLsb(p1, p2).0, TwoPixelsToMsbLsb(p1, p2).1)
      == (Formatter.Channels(p2), Formatter.Channels(p1))
  {
    TwoPixelsSwapsFormatter(p1, p2);
    Formatter.UnformatPairInvertsFormat(p2, p1);
  }

  /** The host's `format_image`: for every row y and pair x < 120 the MSB byte goes to
      y * 240 + x and the LSB byte to y * 240 + x + 120. */
  method FormatImage(img: seq<RgbPixel>) returns (formatted: seq<bv8>)
    requires |img| >= FrameSize
    ensures |formatted| == FrameSize
    ensures forall y, x | 0 <= y < Height && 0 <= x < HalfRow ::
      formatted[y * Width + x] == PairBytes(img, y, x).0 && formatted[y * Width + x + HalfRow] == PairBytes(img, y, x).1
  {
    var buf := new bv8[FrameSize](_ => 0);
    for y := 0 to Height
      invariant forall y', x | 0 <= y' < y && 0 <= x < HalfRow ::
        buf[y' * Width + x] == PairBytes(img, y', x).0 && buf[y' * Width + x + HalfRow] == PairBytes(img, y', x).1
    {
      FormatRow(img, buf, y);
    }
    formatted := buf[..];
  }

  /** The inner loop of `format_image`: fills row y and leaves the other rows alone. */
  method FormatRow(img: seq<RgbPixel>, buf: array<bv8>, y: nat)
    requires |img| >= FrameSize && buf.Length == FrameSize && y < Height
    modifies buf
    ensures forall x | 0 <= x < HalfRow ::
      buf[y * Width + x] == PairBytes(img, y, x).0 && buf[y * Width + x + HalfRow] == PairBytes(img, y, x).1
    ensures forall j | 0 <= j < FrameSize && !(y * Width <= j < y * Width + Width) :: buf[j] == old(buf[j])
  {
    for x := 0 to HalfRow
      invariant forall x' | 0 <= x' < x ::
        buf[y * Width + x'] == PairBytes(img, y, x').0 && buf[y * Width + x' + HalfRow] == PairBytes(img, y, x').1
      invariant forall j | 0 <= j < FrameSize && !(y * Width <= j < y * Width + Width) :: buf[j] == old(buf[j])
    {
      var p1 := To6bppPixel(img[y * Width + x * 2]);
      var p2 := To6bppPixel(img[y * Width + x * 2 + 1]);
      var bytes := TwoPixelsToMsbLsb(p1, p2);
      buf[y * Width + x] := bytes.0;
      buf[y * Width + x + HalfRow] := bytes.1;
    }
  }

  // ---------------------------------------------------------------------------------
  // Framing

  /** The bytes handed to the USB transfer: the compressed frame's length as a
      little-endian `u32` (truncated to 32 bits), then the compressed frame. */
  function FrameMessage(compressed: seq<Byte>): (m: seq<Byte>)
    ensures |m| == |compressed| + 4 && m[4..] == compressed
    ensures |compressed| < U32Range ==> Le32(m[0], m[1], m[2], m[3]) == |compressed|
  {
    Le32Bytes(AsU32(|compressed|)) + compressed
  }
}
