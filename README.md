# Sharpie display firmware and tools, modelled in Dafny

Sharpie drives a 320 x 240 memory-in-pixel panel with 2 bits per colour channel. This project models:

- **The image path.** The offline formatter (`sharpie-formatter`) and the USB display host (`usb-display-host`) reduce 8-bit RGB to 2-bit channels. The host first applies an integer Floyd-Steinberg dither. Both split pixel pairs into an MSB bit-plane byte and an LSB bit-plane byte, and store each 240-byte row as 120 MSB bytes followed by 120 LSB bytes. The formatter can also decode such frames and generate the two-pixel lookup tables.
- **The sequencers.** Three PIO state machines (vertical, GEN and horiz-data) drive the panel. They are "charged" with loop counts through their TX FIFO and forced instructions before IRQ 0 starts them together. A DMA chain then feeds the horiz-data machine a frame of 19200 words followed by zero padding. This is used by the USB client, by the RP2350 bring-up program `sharpie-sw` and by the RP2040 test program `sharpie-rp2040`.
- **The USB client's frame pipeline.** Core 0 receives a frame message (a 4-byte little-endian length, then compressed bytes) into one of two slots, flips the index of the newest slot and rings a one-bit doorbell. Core 1 decompresses the newest slot, waits for both DMA channels, re-charges the sequencers and resends.
- **The USB string descriptor callback** and the constant device and configuration descriptors.
- **The VDP simulator's tile renderer.** It reads a 64 x 64 tilemap of 8 x 8 tiles from a 96 KB VRAM and draws a 320 x 240 RGBA framebuffer.

One module per source file, each module in its own file:

| file | models |
|---|---|
| common.dfy | bytes, little-endian words, `memset`, small arithmetic facts |
| formatter.dfy | sharpie-formatter/src/main.rs |
| host.dfy | sharpie-usb-display/usb-display-host/src/main.rs |
| pio.dfy | the state-machine registers and charge sequences shared by the three firmware programs |
| dma.dfy | the chained DMA transfers shared by the three firmware programs |
| usb_client.dfy | sharpie-usb-display/usb-display-client/sharpie-usb-display-client.c |
| usb_descriptors.dfy | sharpie-usb-display/usb-display-client/usb_descriptors.c |
| sharpie_sw.dfy | sharpie-sw/main.c |
| rp2040.dfy | sharpie-rp2040/main.c |
| vdp.dfy | vdp_simulator/src/main.rs |

The form of each part follows the source:

- Pure code is written as functions with lemmas.
- Loops that fill arrays or mutate a pixel vector are methods with loop invariants. Each method is proved equal to a specification function, or to an explicit description of its result.
- The firmware globals are classes whose methods state their effect on every field.
- The client's two cores are one state machine, `UsbClient.Pipeline`, whose steps (a producer poll, a consumer step, a DMA word) interleave atomically. The `UsbClient.Client` class performs those steps on the C globals.

What the model assumes or leaves out:

- Calls the code cannot see are parameters: TinyUSB reads, the zstd decoder, the button readings, the board id string and the endpoint-0 size.
- The PIO programs themselves are not visible. The model assumes only the register effects of the instructions the CPU forces, and that `*_pio_init` empties the TX FIFO and clears ISR.

## Model

| member | source | states |
|---|---|---|
| Formatter.Channels | sharpie-formatter/src/main.rs:40-45 | the red, green and blue fields of a 0bBBGGRR pixel are bits 0-1, 2-3 and 4-5, each below 4 |
| Formatter.Pack | sharpie-formatter/src/main.rs:105-106 | reassembling three 2-bit channels gives a 6-bit pixel |
| Formatter.ChannelsOfPack | sharpie-formatter/src/main.rs:105-106 | splitting a packed pixel gives back the three 2-bit channels |
| Formatter.PackOfChannels | sharpie-formatter/src/main.rs:40-45 | packing the channels of a 6-bit pixel gives the pixel back |
| Formatter.Quantise | sharpie-formatter/src/main.rs:97-102 | `c >> 6` is below 4 and holds exactly the top two bits of the channel |
| Formatter.QuantisePixel | sharpie-formatter/src/main.rs:97-106 | a quantised source pixel fits in 6 bits |
| Formatter.QuantisePixelChannels | sharpie-formatter/src/main.rs:97-106 | each field of the quantised pixel is the top two bits of the matching source channel |
| Formatter.TwoPixelsToMsbLsb | sharpie-formatter/src/main.rs:36-72 | `two_pixels_to_msb_lsb` yields an MSB byte and an LSB byte that both fit in 6 bits; where each pixel bit lands is given by `Formatter.TwoPixelsBitLayout` |
| Formatter.TwoPixelsBitLayout | sharpie-formatter/src/main.rs:36-72 | both output bytes fit in 6 bits; pixel 1's blue, green and red high bits sit at MSB positions 5, 3, 1 and pixel 2's at 4, 2, 0, and likewise for the low bits in the LSB byte |
| Formatter.UnformatPair | sharpie-formatter/src/main.rs:139-147 | both decoded pixels have 2-bit channels |
| Formatter.UnformatPairBitLayout | sharpie-formatter/src/main.rs:141-147 | each decoded channel takes its high bit from the MSB byte and its low bit from the LSB byte, at the positions the encoder uses |
| Formatter.UnformatPairInvertsFormat | sharpie-formatter/src/main.rs:139-147 | decoding the MSB/LSB bytes of two pixels gives back the channels of both pixels |
| Formatter.FormatInvertsUnformatPair | sharpie-formatter/src/main.rs:56-69 | for 6-bit bytes, encoding the decoded pixels gives the two bytes back |
| Formatter.Expand | sharpie-formatter/src/main.rs:149-150 | `c << 6` clears the low six bits, and quantising it again gives the 2-bit channel back |
| Formatter.LayoutIsBijective | sharpie-formatter/src/main.rs:109-121 | the MSB byte of pair k of row y lands at y*240+k and its LSB byte at y*240+k+120; distinct (row, pair, plane) triples get distinct indices, and every index below 76800 is reached |
| Formatter.FrameCoords | sharpie-formatter/src/main.rs:121 | every flattened index splits into a row below 320 and a column below 240 |
| Formatter.FormattedFrame | sharpie-formatter/src/main.rs:117-123 | the formatted frame has 76800 bytes |
| Formatter.FormatImage | sharpie-formatter/src/main.rs:75-125 | the size check fails exactly when both width != 240 and height != 320; otherwise the output is the formatted frame |
| Formatter.FormatRows | sharpie-formatter/src/main.rs:83-115 | every cell of the 320x240 grid holds the MSB or LSB byte of the pixel pair the layout assigns to it |
| Formatter.Flatten | sharpie-formatter/src/main.rs:117-123 | the flattened frame holds grid cell (i / 240, i % 240) at index i |
| Formatter.UnformattedImage | sharpie-formatter/src/main.rs:134-157 | the decoded image has 320 rows of 240 pixels |
| Formatter.UnformatImage | sharpie-formatter/src/main.rs:127-160 | input whose length is not 76800 is rejected; otherwise the result is the decoded image |
| Formatter.UnformatRows | sharpie-formatter/src/main.rs:136-157 | pixel (col, row) of the buffer is decoded from the MSB byte at column col / 2 and the LSB byte 120 columns further on |
| Formatter.FormatUnformatRoundTrip | sharpie-formatter/src/main.rs:97-153 | formatting then unformatting returns every channel of every pixel as `(c >> 6) << 6` |
| Formatter.UnformatImageRaw | sharpie-formatter/src/main.rs:180-225 | input whose length is not 76800 is rejected; otherwise byte i is the raw decode of pixel (i / 240, i % 240) and is at most 3 |
| Formatter.RawPixelIsTwoBit | sharpie-formatter/src/main.rs:204-205 | the OR of three unshifted 2-bit channels is at most 3 |
| Formatter.RawDecodeMergesChannels | sharpie-formatter/src/main.rs:196-205 | a full-red and a full-green pixel pair decode to the same raw byte, so the raw decode is not an inverse of formatting |
| Formatter.LutIndex | sharpie-formatter/src/main.rs:171-172 | `(i << 6) \| j` on 16-bit values is i * 64 + j |
| Formatter.LutIndexIsBijective | sharpie-formatter/src/main.rs:167-172 | the index map sends pairs of 6-bit pixels one-to-one onto 0..4095 |
| Formatter.GenLuts | sharpie-formatter/src/main.rs:163-178 | entry `(i << 6) \| j` of the MSB and LSB tables holds the two bytes of the pair (i, j), and every entry is written |
| Formatter.GenLutRow | sharpie-formatter/src/main.rs:168-173 | the inner loop fills the 64 entries of first pixel i and leaves every other entry unchanged |
| Host.AsU8 | sharpie-usb-display/usb-display-host/src/main.rs:97-99 | the `as u8` cast keeps every value in 0..255 unchanged |
| Host.AsI8 | sharpie-usb-display/usb-display-host/src/main.rs:293-295 | the `as i8` cast lands in -128..127 and keeps values already in range |
| Host.WrapI32 | sharpie-usb-display/usb-display-host/src/main.rs:293-295 | i32 wrap-around lands in the i32 range and keeps values already in range |
| Host.TruncDiv | sharpie-usb-display/usb-display-host/src/main.rs:293-295 | Rust's signed `/`: the quotient's magnitude is the magnitude of the dividend divided by the divisor, and its sign follows the dividend |
| Host.SaturatingAddSigned | sharpie-usb-display/usb-display-host/src/main.rs:293-295 | `u8::saturating_add_signed` is the exact sum when it fits, 0 below and 255 above |
| Host.New | sharpie-usb-display/usb-display-host/src/main.rs:31-37 | the new pixel is black, already quantised, and packs to 0 |
| Host.FromAbgr32Pixel | sharpie-usb-display/usb-display-host/src/main.rs:40-46 | the three channels are bytes of the word |
| Host.FromAbgr32PixelOfBytes | sharpie-usb-display/usb-display-host/src/main.rs:40-46 | the red, green and blue channels are the low three bytes of the little-endian ABGR word, and the alpha byte is dropped |
| Host.FromRgbaU8s | sharpie-usb-display/usb-display-host/src/main.rs:50-56 | the channels are r, g and b in that order, and the alpha byte is dropped |
| Host.To2bpcColorArray | sharpie-usb-display/usb-display-host/src/main.rs:60-68 | for byte channels each entry is below 4 and is the channel's top two bits |
| Host.Color2bpcTo8bpc | sharpie-usb-display/usb-display-host/src/main.rs:70-79 | 0, 1, 2 and 3 map to 0, 85, 170 and 255, any other input to 255 |
| Host.LevelRoundTrip | sharpie-usb-display/usb-display-host/src/main.rs:60-79 | reducing a 2-bit level's 8-bit value gives the level back |
| Host.To2bpcColorFullRange | sharpie-usb-display/usb-display-host/src/main.rs:82-89 | every output channel is one of 0, 85, 170 and 255, namely 85 times the top two bits of the input channel |
| Host.FullRangeIdempotent | sharpie-usb-display/usb-display-host/src/main.rs:82-89 | reducing a reduced pixel changes nothing |
| Host.LevelFixed | sharpie-usb-display/usb-display-host/src/main.rs:60-79 | each of the four levels is a fixed point of the reduction |
| Host.QuantisedIsFixed | sharpie-usb-display/usb-display-host/src/main.rs:82-89 | a pixel whose channels are all levels is its own reduction |
| Host.QuantisationErrorBound | sharpie-usb-display/usb-display-host/src/main.rs:287-289 | the reduction moves each channel of a byte pixel by at most 63 |
| Host.ChannelErrorBound | sharpie-usb-display/usb-display-host/src/main.rs:287-289 | a byte minus 85 times its top two bits lies within -63..63 |
| Host.To6bppPixel | sharpie-usb-display/usb-display-host/src/main.rs:92-95 | `to_6bpp_pixel` of an 8-bit pixel fits in 6 bits; its channel layout is given by `Host.To6bppPixelLayout` |
| Host.To6bppPixelLayout | sharpie-usb-display/usb-display-host/src/main.rs:92-95 | the packed pixel is below 64, with red in bits 0-1, green in bits 2-3 and blue in bits 4-5 |
| Host.ToU8Slice | sharpie-usb-display/usb-display-host/src/main.rs:97-99 | for byte channels the three bytes are the channels in RGB order |
| Host.DiffuseChannelSign | sharpie-usb-display/usb-display-host/src/main.rs:285-295 | one channel's update (`DiffuseChannel`) leaves the channel alone when the error is zero, never darkens it for a positive weighted error below 2048 and never brightens it for a negative one above -2048 |
| Host.Rgb8QuantError | sharpie-usb-display/usb-display-host/src/main.rs:282-299 | the diffused pixel's channels are bytes |
| Host.DiffuseChannelExact | sharpie-usb-display/usb-display-host/src/main.rs:287-295 | for an error within -63..63 and a weight below 16, neither the i32 product nor the i8 cast wraps, and the channel becomes the byte clamp of the channel plus the truncated quotient |
| Host.QuantErrorOfZero | sharpie-usb-display/usb-display-host/src/main.rs:282-299 | a zero error leaves a byte pixel unchanged |
| Host.QuantError | sharpie-usb-display/usb-display-host/src/main.rs:316-324 | the quantisation error has one entry per channel |
| Host.QuantErrorBound | sharpie-usb-display/usb-display-host/src/main.rs:316-324 | each entry of the error lies within -63..63, and it is all zero for an already quantised pixel |
| Host.Spread | sharpie-usb-display/usb-display-host/src/main.rs:335-357 | diffusing into one neighbour keeps the image length |
| Host.InFrame | sharpie-usb-display/usb-display-host/src/main.rs:335-357 | every index the kernel writes for an in-bounds tap is inside the 76800 pixel frame |
| Host.Kernel | sharpie-usb-display/usb-display-host/src/main.rs:335-357 | the four taps (right, below-left, below, below-right) all lie later in raster order, and each tap the guards let through stays in the frame |
| Host.Diffuse | sharpie-usb-display/usb-display-host/src/main.rs:335-357 | diffusing over the taps keeps the image length |
| Host.DiffuseEffect | sharpie-usb-display/usb-display-host/src/main.rs:335-357 | only the tapped pixels change, and each changed pixel has byte channels |
| Host.DiffuseZero | sharpie-usb-display/usb-display-host/src/main.rs:335-357 | a zero error diffused over byte pixels changes nothing |
| Host.DitherStep | sharpie-usb-display/usb-display-host/src/main.rs:316-357 | one inner-loop iteration keeps the image length |
| Host.DitherStepEffect | sharpie-usb-display/usb-display-host/src/main.rs:316-357 | after one iteration the current pixel is quantised; only it and the four pixels at offsets 1, 239, 240 and 241 change, each changed one has byte channels, and nothing past the frame changes |
| Host.DitherStepFixesQuantised | sharpie-usb-display/usb-display-host/src/main.rs:316-357 | an iteration on a quantised pixel of a byte image changes nothing |
| Host.DitherRow | sharpie-usb-display/usb-display-host/src/main.rs:315-358 | the inner loop keeps the image length |
| Host.DitherRows | sharpie-usb-display/usb-display-host/src/main.rs:314-360 | the outer loop keeps the image length |
| Host.Dithered | sharpie-usb-display/usb-display-host/src/main.rs:309-363 | the dithered image has the input's length |
| Host.StepProgress | sharpie-usb-display/usb-display-host/src/main.rs:316-357 | after pixel n is processed, every pixel before n+1 is quantised and none at or past n+242 has been touched |
| Host.RowProgress | sharpie-usb-display/usb-display-host/src/main.rs:315-358 | the inner loop extends that progress across a row |
| Host.RowsProgress | sharpie-usb-display/usb-display-host/src/main.rs:314-360 | the outer loop extends it across rows |
| Host.DitherResult | sharpie-usb-display/usb-display-host/src/main.rs:309-363 | every pixel of the 240x320 frame ends quantised, pixels past the frame are unchanged, and a byte image stays a byte image |
| Host.RowFixesQuantised | sharpie-usb-display/usb-display-host/src/main.rs:315-358 | a row loop over an already quantised image changes nothing |
| Host.DitherFixesQuantised | sharpie-usb-display/usb-display-host/src/main.rs:309-363 | dithering an already quantised image returns it unchanged |
| Host.FloydSteinbergDither | sharpie-usb-display/usb-display-host/src/main.rs:309-363 | the in-place dither of the copied input yields the dithered image |
| Host.DitherRowPixels | sharpie-usb-display/usb-display-host/src/main.rs:315-358 | the inner loop over row y turns the buffer into the row-dithered image |
| Host.DitherPixel | sharpie-usb-display/usb-display-host/src/main.rs:316-357 | one iteration, with its four guarded neighbour updates, turns the buffer into the stepped image |
| Host.TwoPixelsToMsbLsb | sharpie-usb-display/usb-display-host/src/main.rs:373-407 | the host's `two_pixels_to_msb_lsb` yields two bytes that both fit in 6 bits; `Host.TwoPixelsSwapsFormatter` shows it is the formatter's encoder with the pixels swapped |
| Host.TwoPixelsSwapsFormatter | sharpie-usb-display/usb-display-host/src/main.rs:373-407 | the host's encoder of (p1, p2) equals the formatter's encoder of (p2, p1), and both bytes fit in 6 bits |
| Host.FormatterDecodeSwapsHostPairs | sharpie-usb-display/usb-display-host/src/main.rs:391-407 | the formatter's decoder reads a host-encoded pair back with its two pixels swapped |
| Host.FormatImage | sharpie-usb-display/usb-display-host/src/main.rs:415-440 | the 76800-byte output holds the MSB byte of pair x of row y at y*240+x and its LSB byte at y*240+x+120 |
| Host.FormatRow | sharpie-usb-display/usb-display-host/src/main.rs:419-438 | one row pass writes the 240 bytes of row y and leaves every other byte unchanged |
| Host.FrameMessage | sharpie-usb-display/usb-display-host/src/main.rs:188 | the frame message is the compressed bytes after a 4-byte little-endian length, which encodes the compressed size when it fits in a u32 |
| Pio.StateMachine.Init | sharpie-usb-display/usb-display-client/sharpie-usb-display-client.c:145-149 | initialising a state machine empties its TX FIFO and clears ISR, and keeps OSR, X and Y (an assumption about the SDK init functions) |
| Pio.StateMachine.Put | sharpie-usb-display/usb-display-client/sharpie-usb-display-client.c:154 | `pio_sm_put` appends the word to the TX FIFO when fewer than 4 words are queued, and is dropped otherwise; no register changes |
| Pio.StateMachine.Pull | sharpie-usb-display/usb-display-client/sharpie-usb-display-client.c:158 | a non-blocking `pull` moves the FIFO head into OSR; on an empty FIFO it copies X into OSR |
| Pio.StateMachine.Out32 | sharpie-usb-display/usb-display-client/sharpie-usb-display-client.c:165 | `out isr, 32` or `out y, 32` moves all of OSR into the destination and leaves OSR zero |
| Pio.StateMachine.MovX | sharpie-usb-display/usb-display-client/sharpie-usb-display-client.c:159 | `mov x, osr` or `mov x, isr` copies the source into X and changes nothing else |
| Pio.ChargeVertical | sharpie-usb-display/usb-display-client/sharpie-usb-display-client.c:154 | after charging, the vertical FIFO holds exactly 321 and its registers are unchanged |
| Pio.ChargeGen | sharpie-usb-display/usb-display-client/sharpie-usb-display-client.c:157-159 | after charging, the GEN state machine has X = OSR = 639 and an empty FIFO |
| Pio.ChargeHorizData | sharpie-usb-display/usb-display-client/sharpie-usb-display-client.c:163-170 | after charging, horiz-data has X = ISR = 59, Y = 640, OSR cleared and an empty FIFO |
| Pio.Block.constructor | sharpie-usb-display/usb-display-client/sharpie-usb-display-client.c:114-116 | a PIO block starts with no programs loaded and no IRQ forced |
| Pio.Block.AddPrograms | sharpie-usb-display/usb-display-client/sharpie-usb-display-client.c:114-138 | the three programs are loaded and the IRQ state is unchanged |
| Pio.Block.ResetAndCharge | sharpie-usb-display/usb-display-client/sharpie-usb-display-client.c:140-175 | all three state machines of the block are initialised and then charged |
| Pio.Block.ForceIrq0 | sharpie-usb-display/usb-display-client/sharpie-usb-display-client.c:111 | writing 1 to `irq_force` forces IRQ 0 and leaves the loaded programs alone |
| Pio.DisplayMask | sharpie-rp2040/main.c:165 | the clock-restart mask 0b111 selects exactly state machines 0, 1 and 2 |
| Pio.LoopRunsCharge | sharpie-usb-display/usb-display-client/sharpie-usb-display-client.c:151-153 | a loop charged with x runs x + 1 times |
| Pio.ChargeArithmetic | sharpie-usb-display/usb-display-client/sharpie-usb-display-client.c:154-168 | 321 gives 2(321+1)+4 = 648 half-lines, 639 gives 640 GEN pulses, 59 gives 2(59+1)+4 = 124 half-lines, and 640 gives 641 outer loops |
| Pio.WordsPerFrame | sharpie-usb-display/usb-display-client/sharpie-usb-display-client.c:163-168 | an outer loop of the horiz-data program takes 30 words, and 641 loops take 19230 |
| Dma.Emitted | sharpie-usb-display/usb-display-client/sharpie-usb-display-client.c:83-93 | a transfer emits `count` words: word k of its source when reads increment, otherwise the one fixed word every time |
| Dma.Stream | sharpie-usb-display/usb-display-client/sharpie-usb-display-client.c:88 | a chain emits the primary transfer's words followed by the padding transfer's words |
| Dma.WordsOf | sharpie-usb-display/usb-display-client/sharpie-usb-display-client.c:86 | a 32-bit transfer reads the byte buffer as little-endian words, word k from bytes 4k..4k+3 |
| Dma.ClientChain | sharpie-usb-display/usb-display-client/sharpie-usb-display-client.c:77-112 | the client's chain is 19200 incrementing words from the framebuffer plus 120/4 fixed zero words |
| Dma.ClientStream | sharpie-usb-display/usb-display-client/sharpie-usb-display-client.c:89-106 | the first 19200 words are the framebuffer's, the stream is 641 * 30 = 19230 words, and the 641st outer loop's 30 words are all zero |
| Dma.ClientStreamWord | sharpie-usb-display/usb-display-client/sharpie-usb-display-client.c:89-106 | word k of the client stream is framebuffer word k for k < 19200 and zero after |
| Dma.PaddedChain | sharpie-sw/main.c:225-248 | the chain is 19200 words from the given source plus 240/4 fixed zero words |
| Dma.FramebufferChain | sharpie-rp2040/main.c:138-161 | the framebuffer chain (sharpie-rp2040's only chain, sharpie-sw's red chain at sharpie-sw/main.c:331-354) reads the framebuffer with increment and its transfers are well formed |
| Dma.PaddedStreamLength | sharpie-sw/main.c:231-248 | such a chain streams 19260 words, 30 more than the 641 loops take, and every word after the first 19200 is zero |
| SharpieSw.Toggle | sharpie-sw/main.c:128-132 | the tracker becomes 1 exactly when it was 0, and stays in {0, 1} |
| SharpieSw.TrackerAlternates | sharpie-sw/main.c:20 | starting from 1, the tracker after n interrupts is 1 for even n and 0 for odd n |
| SharpieSw.TrackerPeriodTwo | sharpie-sw/main.c:123-133 | from 0 or 1, two interrupts bring the tracker back, and it stays in {0, 1} |
| SharpieSw.PowerUpOrder | sharpie-sw/main.c:251-308 | the clock restarts of PIO 0, 1 and 2 and the 5 V enable come before the first frame trigger, which comes before the PWM start |
| SharpieSw.FrameOrder | sharpie-sw/main.c:308-423 | the PWM start comes before the red frame trigger, which comes before the final frame trigger, which comes before the PWM stop |
| SharpieSw.PowerDownOrder | sharpie-sw/main.c:423-438 | the PWM stop comes before both bias pins go low, and both go low before the 5 V supply is switched off |
| SharpieSw.PowerSequenceMasks | sharpie-sw/main.c:251-253 | every clock restart uses a mask that selects exactly state machines 0-2, and the 5 V supply is switched off only as the last event |
| SharpieSw.FirstChain | sharpie-sw/main.c:225-248 | the first chain's transfers are well formed |
| SharpieSw.FinalChain | sharpie-sw/main.c:387-410 | the final chain's transfers are well formed |
| SharpieSw.BringUpLengths | sharpie-sw/main.c:231-410 | all three chains stream 19260 = 641 * 30 + 30 words, and the 60 padding words of each are zero |
| SharpieSw.FirstFrameWords | sharpie-sw/main.c:33 | the first "black" frame re-reads `global_32bit_max` = 0x3F, so each of its 19200 words is 0x0000003F |
| SharpieSw.RedFrameWords | sharpie-sw/main.c:165 | with the red framebuffer set to 0x3F, each of the red chain's 19200 words is 0x3F3F3F3F |
| SharpieSw.FinalFrameWords | sharpie-sw/main.c:393-410 | every word of the final chain is zero |
| SharpieSw.Board.constructor | sharpie-sw/main.c:20-33 | the tracker starts at 1, nothing is loaded, forced or configured |
| SharpieSw.Board.PwmWrapInterrupt | sharpie-sw/main.c:123-133 | `va_pin` takes the tracker's level and `vb_vcom_pin` the opposite, and the tracker toggles |
| SharpieSw.Board.BiasRuns | sharpie-sw/main.c:181-182 | after n interrupts the tracker is the n-fold toggle, and once one has run the two bias pins are opposite |
| SharpieSw.Board.InitSharpiePios | sharpie-sw/main.c:52-76 | the loop over i < 2 loads the programs into PIO 0 and PIO 1 only |
| SharpieSw.Board.RestartStateMachines | sharpie-sw/main.c:78-111 | PIO 0 and PIO 1 end with all three state machines charged |
| SharpieSw.Board.PowerUp | sharpie-sw/main.c:225-282 | the first chain is configured on PIO 0 and the first six events of the power sequence happen, ending with IRQ 0 forced on PIO 0 |
| SharpieSw.Board.SendFrames | sharpie-sw/main.c:316-416 | the red chain on PIO 1 and the final chain on PIO 2 are configured and both are triggered |
| SharpieSw.Board.PowerDown | sharpie-sw/main.c:423-438 | PWM stops, both bias pins go low and the 5 V supply goes off, in that order |
| SharpieSw.Board.ShowFrames | sharpie-sw/main.c:225-438 | the whole sequence after the charge configures the three chains and emits the power sequence |
| SharpieSw.Board.Run | sharpie-sw/main.c:159-440 | `main`: the framebuffers are set to 0x3F and 0, PIO 0 and 1 are loaded and charged while PIO 2 is never loaded, all three IRQs are forced, the three chains and the full power sequence happen in order, and both bias pins end low |
| Rp2040.Index | sharpie-rp2040/main.c:39-42 | `formatted_framebuffer[i][j]` lies inside the 76800-byte frame |
| Rp2040.FilledFrameStream | sharpie-rp2040/main.c:138-161 | with the filled framebuffer the chain sends 19200 all-ones words and then 60 zero words, 19260 in all |
| Rp2040.Board.constructor | sharpie-rp2040/main.c:34-37 | nothing is loaded, forced or configured at reset |
| Rp2040.Board.FillFramebuffer | sharpie-rp2040/main.c:39-44 | the fill loop leaves every one of the 320 * 240 bytes at 0xff, because the step of 2 writes both j and j + 1 |
| Rp2040.Board.LoadAndCharge | sharpie-rp2040/main.c:61-121 | the programs are loaded and all three state machines of PIO 0 are charged |
| Rp2040.Board.WaitForButton | sharpie-rp2040/main.c:166-174 | IRQ 0 is forced at the first high reading and the loop stops there; while readings stay low nothing is forced |
| Rp2040.Board.Run | sharpie-rp2040/main.c:34-174 | the framebuffer is 0xff, PIO 0 is charged, the chain is configured from the framebuffer, the clocks restart with mask 0b111, and then IRQ 0 is forced only once the button reads high |
| Vdp.New | vdp_simulator/src/main.rs:112-120 | a new VDP has all-zero VRAM, zero scroll, an all-zero 64x64 tilemap and mode 320x240 |
| Vdp.PxToRgba | vdp_simulator/src/main.rs:208-213 | R, G and B are in {0, 64, 128, 192} and come from bits 0-1, 2-3 and 4-5; alpha is 0xff exactly when bit 6 is clear, and 0 otherwise |
| Vdp.PxToRgbaRecovers | vdp_simulator/src/main.rs:208-213 | the colour and transparency bits can be read back from the RGBA value |
| Vdp.PxToRgbaKernel | vdp_simulator/src/main.rs:208-213 | two pixels decode alike exactly when they agree below bit 7 |
| Vdp.ScrollSplit | vdp_simulator/src/main.rs:135-140 | the scroll is 8 times the start tile plus an in-tile offset below 8, on both axes |
| Vdp.TileRow | vdp_simulator/src/main.rs:146-194 | the tilemap row read at display row r stays inside the map |
| Vdp.TileAt | vdp_simulator/src/main.rs:146-196 | the tile drawn at any column of display row r, the stale row-start tile included, is one of the tiles of tilemap row `TileRow(v, r)` |
| Vdp.Pixel | vdp_simulator/src/main.rs:156-168 | the closed form `Vdp.Render` is proved against: every displayed pixel has 2-bit colour channels (0, 64, 128 or 192) and is either fully opaque or fully transparent |
| Vdp.Bytes | vdp_simulator/src/main.rs:171-174 | the four framebuffer bytes of an RGBA value, in RGBA order |
| Vdp.TheImage | vdp_simulator/src/main.rs:153-200 | every renderable state has an image whose pixel r*320+c is the pixel the renderer draws at (r, c) |
| Vdp.FlattenPixel | vdp_simulator/src/main.rs:170-174 | bytes 4m..4m+3 of the flattened image are pixel m's RGBA value |
| Vdp.FramebufferPixels | vdp_simulator/src/main.rs:170-174 | a buffer starting with the flattened image holds pixel (r, c) at bytes 4(r*320+c)..+3 |
| Vdp.PixelFromCounters | vdp_simulator/src/main.rs:157-168 | the tile read stays inside VRAM, and the pixel picked from the counters is the pixel of the closed form |
| Vdp.NextColumnTile | vdp_simulator/src/main.rs:179-186 | inside a tile the next column keeps the tile; when the in-tile x reaches 8 the next tilemap column is read, at most 40 columns right of the row's start column |
| Vdp.NextRowTile | vdp_simulator/src/main.rs:189-196 | inside a tile row the next row keeps the last tile fetched; when the in-tile y reaches 8 column 0 of the next tilemap row is read, at most 30 rows below the start row |
| Vdp.NewRendersBlack | vdp_simulator/src/main.rs:112-120 | a fresh VDP can be rendered, and every pixel is opaque black |
| Vdp.UnscrolledTiles | vdp_simulator/src/main.rs:153-196 | without scroll, row 0, every row starting a tile row and every pixel past the first tile column show the tile of the tilemap under them |
| Vdp.UnscrolledStaleTile | vdp_simulator/src/main.rs:189-196 | without scroll, inside a tile row the first eight pixels of a row show tilemap column 40 of the row, not column 0 |
| Vdp.WritePixel | vdp_simulator/src/main.rs:171-174 | four consecutive bytes receive the RGBA value and the rest of the buffer is unchanged |
| Vdp.DrawPixel | vdp_simulator/src/main.rs:156-175 | drawing the current pixel extends the framebuffer's image prefix by one pixel and leaves the bytes past the frame alone |
| Vdp.RenderRow | vdp_simulator/src/main.rs:154-187 | one row pass draws 320 more pixels of the image, ends with the in-tile x back at the row-start offset and reads tilemap column start + 40 |
| Vdp.Render | vdp_simulator/src/main.rs:123-200 | with a buffer of at least 307200 bytes, bytes 4(r*320+c)..+3 hold pixel (r, c) for every r < 240 and c < 320, later bytes are untouched, and `pixels_pushed` ends at 76800 |
| UsbClient.Initial | sharpie-usb-display/usb-display-client/sharpie-usb-display-client.c:36-39 | the pipeline starts valid, with slot 0 newest, no doorbell and no frame in progress |
| UsbClient.Assemble | sharpie-usb-display/usb-display-client/sharpie-usb-display-client.c:357-371 | a mounted poll with data keeps or starts the frame, adds the chunk to `count`, takes the size from the header when starting, and stays within `compressed_size + 4 <= BUFSIZE`; nothing else changes |
| UsbClient.ProducerPoll | sharpie-usb-display/usb-display-client/sharpie-usb-display-client.c:346-411 | a poll of core 0 keeps the pipeline valid and never touches the framebuffer, the DMA or the send count |
| UsbClient.PollStartsFrame | sharpie-usb-display/usb-display-client/sharpie-usb-display-client.c:357-365 | on starting a frame, `compressed_size` is the little-endian u32 of the first 4 bytes and `count` restarts from 0, so it is 4 plus the chunk after the first read |
| UsbClient.CommitExactly | sharpie-usb-display/usb-display-client/sharpie-usb-display-client.c:372-408 | newest changes exactly when `count == compressed_size + 4`, and the frame stays in progress exactly when it does not |
| UsbClient.CommitHandsOver | sharpie-usb-display/usb-display-client/sharpie-usb-display-client.c:379-396 | a commit copies `inputbuf[4..4+compressed_size]` into the slot other than the newest with its size, flips newest, rings the doorbell, ends the frame and leaves the old newest slot alone |
| UsbClient.PollKeepsReceived | sharpie-usb-display/usb-display-client/sharpie-usb-display-client.c:371 | a read appends the chunk to the bytes already received |
| UsbClient.FramingRoundTrip | sharpie-usb-display/usb-display-client/sharpie-usb-display-client.c:357-396 | a whole host message (4-byte little-endian length, then the payload) received in one poll is committed into the other slot with exactly the host's compressed bytes and size |
| UsbClient.PollWithoutCommit | sharpie-usb-display/usb-display-client/sharpie-usb-display-client.c:355-371 | a poll that does not commit leaves both slots and the doorbell unchanged |
| UsbClient.Decompress | sharpie-usb-display/usb-display-client/sharpie-usb-display-client.c:208-219 | whatever the decompressor wrote before it returned, success or error, overwrites the front of the framebuffer up to its 76800 bytes and the rest keeps its old contents, so a decode that wrote nothing keeps the old image and one that wrote 76800 bytes or more replaces it entirely |
| UsbClient.DecompressIgnoresError | sharpie-usb-display/usb-display-client/sharpie-usb-display-client.c:209-217 | `dsize` is never checked, so a decode that failed leaves the same framebuffer as one that succeeded after writing the same bytes |
| UsbClient.ConsumerStep | sharpie-usb-display/usb-display-client/sharpie-usb-display-client.c:196-241 | a step of core 1 keeps the pipeline valid |
| UsbClient.DmaStep | sharpie-usb-display/usb-display-client/sharpie-usb-display-client.c:227-228 | a DMA step keeps the pipeline valid |
| UsbClient.PickupReadsNewest | sharpie-usb-display/usb-display-client/sharpie-usb-display-client.c:197-219 | core 1 picks up exactly when the doorbell is set while it is not waiting on DMA; a pickup clears the doorbell and decompresses the newest slot, and otherwise neither the framebuffer nor the doorbell changes |
| UsbClient.NoPickupWithoutDoorbell | sharpie-usb-display/usb-display-client/sharpie-usb-display-client.c:197 | without the doorbell core 1 changes nothing |
| UsbClient.SendOnlyWhenIdle | sharpie-usb-display/usb-display-client/sharpie-usb-display-client.c:227-233 | a recharge and resend happen only once both DMA channels are idle, and then happen; the new chain starts with its full 19230 words |
| UsbClient.ConsumerKeepsProducerState | sharpie-usb-display/usb-display-client/sharpie-usb-display-client.c:189-243 | core 1 and the DMA never touch `frame_in_progress`, `count`, `compressed_size`, `inputbuf`, the slots or newest |
| UsbClient.LatestWins | sharpie-usb-display/usb-display-client/sharpie-usb-display-client.c:197-219 | two complete frames committed before one pickup make the consumer decompress the second frame's bytes; newest is back where it started and the doorbell is clear |
| UsbClient.StreamingPreserved | sharpie-usb-display/usb-display-client/sharpie-usb-display-client.c:227-233 | the words sent so far are always a prefix of the client chain over the current framebuffer, across DMA steps, resends and consumer steps that leave the framebuffer alone |
| UsbClient.PollKeepsStreaming | sharpie-usb-display/usb-display-client/sharpie-usb-display-client.c:346-411 | a producer poll keeps that stream invariant |
| UsbClient.CompletedChain | sharpie-usb-display/usb-display-client/sharpie-usb-display-client.c:89-106 | a finished chain has sent the framebuffer's 19200 words followed by 30 zero words |
| UsbClient.MemCopy | sharpie-usb-display/usb-display-client/sharpie-usb-display-client.c:386 | `memcpy` copies n bytes from the source offset and leaves the rest of the destination |
| UsbClient.WriteAt | sharpie-usb-display/usb-display-client/sharpie-usb-display-client.c:364 | a device read of k bytes writes them at the offset and leaves the rest of the buffer |
| UsbClient.Client.constructor | sharpie-usb-display/usb-display-client/sharpie-usb-display-client.c:36-39 | the C globals start in the initial pipeline state |
| UsbClient.Client.Poll | sharpie-usb-display/usb-display-client/sharpie-usb-display-client.c:346-411 | one pass of the producer loop over the globals is the pipeline's producer poll |
| UsbClient.Client.BeginFrame | sharpie-usb-display/usb-display-client/sharpie-usb-display-client.c:357-365 | the header read over the globals is the pipeline's frame start |
| UsbClient.Client.ReadPayload | sharpie-usb-display/usb-display-client/sharpie-usb-display-client.c:371 | the payload read over the globals is the pipeline's receive |
| UsbClient.Client.HandOver | sharpie-usb-display/usb-display-client/sharpie-usb-display-client.c:379-396 | the commit over the globals is the pipeline's commit |
| UsbClient.Client.Core1Step | sharpie-usb-display/usb-display-client/sharpie-usb-display-client.c:196-241 | one pass of `core1_entry` over the globals is the pipeline's consumer step, and a resend leaves the PIO charged with IRQ 0 forced |
| UsbClient.Client.PickupNewest | sharpie-usb-display/usb-display-client/sharpie-usb-display-client.c:197-219 | the pickup over the globals is the pipeline's pickup |
| UsbClient.Client.Resend | sharpie-usb-display/usb-display-client/sharpie-usb-display-client.c:232-233 | the recharge and resend over the globals is the pipeline's send, and it leaves the PIO charged and IRQ 0 forced |
| UsbClient.Client.DmaTick | sharpie-usb-display/usb-display-client/sharpie-usb-display-client.c:227-228 | one DMA word over the globals is the pipeline's DMA step |
| UsbClient.DecompressInto | sharpie-usb-display/usb-display-client/sharpie-usb-display-client.c:209-217 | decompressing into the framebuffer array gives the decompressed framebuffer |
| UsbDescriptors.Ascii | sharpie-usb-display/usb-display-client/usb_descriptors.c:83-86 | the string table entries are stored as their character codes |
| UsbDescriptors.TableString | sharpie-usb-display/usb-display-client/usb_descriptors.c:82-87 | every string of the table, serial included, fits in 31 units and holds no NUL |
| UsbDescriptors.HeaderWord | sharpie-usb-display/usb-display-client/usb_descriptors.c:131-132 | the header word has descriptor type 3 in its high byte and 2n + 2 in its low byte |
| UsbDescriptors.ShiftOrIsSum | sharpie-usb-display/usb-display-client/usb_descriptors.c:132 | `(3 << 8) \| (2n + 2)` equals 768 + 2n + 2 |
| UsbDescriptors.Descriptor | sharpie-usb-display/usb-display-client/usb_descriptors.c:119-133 | every string descriptor has a header and at least one code unit and fits the 32-unit static buffer |
| UsbDescriptors.DescriptorLayout | sharpie-usb-display/usb-display-client/usb_descriptors.c:119-133 | the header's low byte is the descriptor's byte length; index 0 gives exactly 0x0304 then LANGID 0x0409; any other index gives the header followed by the string's characters, zero-extended |
| UsbDescriptors.StringLoopInBounds | sharpie-usb-display/usb-display-client/usb_descriptors.c:127-128 | the copy loop's last write stays inside the 32-unit buffer exactly when the string has at most 31 characters |
| UsbDescriptors.TableStringsFit | sharpie-usb-display/usb-display-client/usb_descriptors.c:111-128 | every string of the table keeps the copy loop inside the buffer |
| UsbDescriptors.StringTable.constructor | sharpie-usb-display/usb-display-client/usb_descriptors.c:80 | `id` starts all NUL |
| UsbDescriptors.StringTable.StringCallback | sharpie-usb-display/usb-display-client/usb_descriptors.c:108-134 | the serial id is filled only when its first byte is NUL, so at most once; an index of 5 or more returns NULL with the buffer unchanged; any other index leaves the buffer holding that index's descriptor, and the rest of it unchanged |
| UsbDescriptors.StringTable.WriteDescriptor | sharpie-usb-display/usb-display-client/usb_descriptors.c:121-132 | the buffer starts with the index's descriptor and the rest is unchanged |
| UsbDescriptors.StringTable.CopyString | sharpie-usb-display/usb-display-client/usb_descriptors.c:127-128 | the loop stops at the NUL and copies the n characters before it to units 1..n |
| UsbDescriptors.StringTable.FillId | sharpie-usb-display/usb-display-client/usb_descriptors.c:116-117 | the board id string is stored with its NUL terminator |
| UsbDescriptors.Le16 | sharpie-usb-display/usb-display-client/usb_descriptors.c:44 | a 16-bit field is stored as its low byte then its high byte |
| UsbDescriptors.DeviceDescriptor | sharpie-usb-display/usb-display-client/usb_descriptors.c:41-58 | `desc_device` is 18 bytes long, the size of `tusb_desc_device_t`; its fields are given by `UsbDescriptors.DeviceDescriptorFields` |
| UsbDescriptors.DeviceDescriptorFields | sharpie-usb-display/usb-display-client/usb_descriptors.c:41-58 | the device descriptor is 18 bytes long with bLength 18, type 1, VID 0x2E8A, PID 0xA1B1, EP0 size as configured, string indices 1-3 in the table and one configuration |
| UsbDescriptors.ConfigurationDescriptor | sharpie-usb-display/usb-display-client/usb_descriptors.c:61-76 | `desc_cfg` is `USBD_DESC_LEN` = 32 bytes long; its fields are given by `UsbDescriptors.ConfigurationDescriptorFields` |
| UsbDescriptors.ConfigurationDescriptorFields | sharpie-usb-display/usb-display-client/usb_descriptors.c:61-76 | the configuration block is 32 bytes with that total length, one interface, 50 mA, and bulk endpoints 0x01 and 0x81 of 64 bytes |
| UsbDescriptors.DeviceCallback | sharpie-usb-display/usb-display-client/usb_descriptors.c:90-94 | the device callback returns the constant device table, which is 18 bytes with bLength 18, type 1, VID 0x2E8A, PID 0xA1B1, the configured EP0 size, one configuration and string indices 1-3 inside the string table |
| UsbDescriptors.ConfigurationCallback | sharpie-usb-display/usb-display-client/usb_descriptors.c:97-102 | whatever the index, the configuration callback returns the constant table, which is 32 bytes with wTotalLength 32, one interface, 50 mA, a vendor string index inside the string table and bulk endpoints 0x01 and 0x81 of 64 bytes |
| Common.Le32 | sharpie-usb-display/usb-display-client/sharpie-usb-display-client.c:365 | the little-endian value of four bytes has those bytes as its base-256 digits |
| Common.Le32Bytes | sharpie-usb-display/usb-display-client/sharpie-usb-display-client.c:365 | the four little-endian bytes of a u32 read back as the value |
| Common.Memset | sharpie-sw/main.c:165-166 | `memset` sets every byte of the buffer to the value |

## Where the code differs from the design description

The model follows the code in each of these cases.

- A failed decompression does not drop the frame. The returned `dsize` is ignored; core 1 still waits for the DMA, re-charges and resends whatever the framebuffer holds. zstd decodes block by block straight into the framebuffer, so after an error that buffer holds the blocks decoded before it over the rest of the previous image: the old image only when nothing was written (`UsbClient.Decompress`, `UsbClient.DecompressIgnoresError`, `UsbClient.PickupReadsNewest`).
- The USB client pads each frame with 120/4 = 30 zero words, exactly the 641st loop of the horiz-data program. `sharpie-sw` and `sharpie-rp2040` pad with 240/4 = 60, which is 30 words more than the program consumes (`Dma.PaddedStreamLength`, `Rp2040.FilledFrameStream`).
- In `sharpie-sw` the programs are loaded and charged on PIO 0 and PIO 1 only (`i < 2`). The final frame's chain and IRQ target PIO 2, which is never loaded (`SharpieSw.Board.Run`).
- In `sharpie-sw` the first frame, the "black" one, reads the non-incrementing `global_32bit_max` = 0x3F. Every one of its words is therefore 0x0000003F, not zero (`SharpieSw.FirstFrameWords`).
- The host's copy of `two_pixels_to_msb_lsb` puts pixel 2 in the odd bit positions, the formatter's puts pixel 1 there. Frames formatted by the host therefore decode with the two pixels of each pair swapped (`Host.TwoPixelsSwapsFormatter`, `Host.FormatterDecodeSwapsHostPairs`).
- The VDP renderer resets the tile column to 0 at every row start instead of `scroll_x / 8`. It fetches a new tile only at a tile-row boundary, so inside a tile row the first pixels draw the last tile of the previous row. The model draws exactly this and claims no scrolling property (`Vdp.UnscrolledStaleTile`).

## Left out

- zstd compression and decompression: the decoder is a parameter giving the bytes it writes into the framebuffer and whether it reports an error; which bytes a given input produces is not modelled, and neither is the host-side encoder.
- The host's GStreamer pipeline, appsink callback, channel thread and `write_bulk`: by the time a frame is sent it is a byte sequence, and `Host.FrameMessage` models its framing.
- TinyUSB, UART output, the DWT cycle counter and `printf`/`println!`: they are I/O. Reads become parameters and output is dropped.
- GPIO, PWM and clock set-up, sleeps, and the `error_handler` blink loop: these are hardware configuration and timing. Only the order of the visible steps is kept, as an event log.
- `one_gck_hl_us`: it is computed in floating point and only sizes a sleep.
- Real concurrency, `volatile` and memory ordering: the two cores are modelled as an interleaving of atomic steps.
- The `.pio` programs, and the Pico SDK beyond the forced instructions and `pio_sm_put`: the programs are not part of this model. The check `offset < 0` on an unsigned offset cannot fire, so it is left out.
- `pio_add_program` and `dma_claim_unused_channel` failures: these lead to the blink loop.
- File and image I/O: the formatter's `main`, `fs` and `image` calls, the VDP simulator's `main` and winit loop, and `render2`. Images arrive as values, and results are returned as values.
- `sharpie-hw/tlv758-resistor-solver.py` and `vdp_simulator/png_to_raw.py`: scripts outside the firmware and tools (floating-point search, PIL I/O).
- The VDP's `tilemap_0_mode`: it is stored but never read by `render`.
- Vdp.Render: a Rust panic (a tilemap or VRAM index out of range) is excluded by the precondition `Renderable`, which holds exactly when every tilemap read stays below 64 and every drawn tile is below 1536; the panic itself is not modelled.
- UsbClient.ProducerPoll: its precondition states three assumptions the code makes silently: the header read returns 4 bytes, `compressed_size + 4 <= BUFSIZE`, and a read never runs past the end of the frame.
- SharpieSw.Board.ShowFrames: the PWM wrap interrupts are taken to run, `wraps` of them, at the PWM start; they do not interleave with the later events.
- SharpieSw.Board.BiasRuns: the interrupt count is a parameter, because it depends on real time.
- Host.FloydSteinbergDither: the input must hold at least 76800 pixels; a shorter slice panics in Rust, and that panic is not modelled.
- Host.FormatImage: the input must hold at least 76800 pixels; a shorter slice panics in Rust, and that panic is not modelled.
- UsbDescriptors.StringTable.StringCallback: `pico_get_unique_board_id_string` is a parameter, a string of 16 non-NUL characters.
- UsbDescriptors.DeviceDescriptorFields: `CFG_TUD_ENDPOINT0_SIZE` comes from the TinyUSB configuration and is a parameter.
- Pio.StateMachine.Init: the effect of `sharpie_*_pio_init` is assumed, not derived.
- Rp2040.Board.WaitForButton: the source polls forever while the button reads low; the model polls a finite sequence of readings and returns after the last one if none was high, so it does not capture the endless spin.
