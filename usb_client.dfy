/** The USB display client: core 0 polls the vendor interface, assembles one length-prefixed
    compressed frame at a time in `inputbuf` and hands it to core 1 through two compressed buffers,
    the index of the newest one and a one-bit doorbell; core 1 decompresses the newest buffer into
    the framebuffer, waits for the two DMA channels of the previous frame to go idle, re-charges the
    PIO state machines and starts the next DMA chain.

    The two cores are modelled as one state machine whose steps (a producer poll, a consumer step,
    a DMA word transfer) interleave atomically. TinyUSB reads and zstd decompression are
    parameters of the steps. */
module UsbClient {
  import opened Common
  import Dma
  import Pio
  import Host

  /** `BUFSIZE`: the size of `inputbuf`, of each compressed buffer and of the framebuffer. */
  const BufSize: nat := 76800

  /** Words of one DMA chain: 19200 framebuffer words and 120 / 4 zero words. */
  const ChainWords: nat := 19230

  /** A `compressed_buffer_t`: its data bytes and the number of them in use. */
  datatype Slot = Slot(data: seq<Byte>, size: U32)

  /** The globals both cores share, plus where core 1 is and what the DMA chain has done. */
  datatype Pipeline = Pipeline(
    frameInProgress: bool,
    count: U32,
    compressedSize: U32,
    inputbuf: seq<Byte>,
    buffer0: Slot,
    buffer1: Slot,
    newest: int,
    doorbell: bool,
    framebuffer: seq<Byte>,
    /** Core 1 has decompressed and is spinning on the two DMA channels. */
    atDmaWait: bool,
    /** Words of the current chain not yet written to the horiz-data FIFO. */
    dmaLeft: nat,
    /** Words of the current chain written to the FIFO so far. */
    sent: seq<U32>,
    /** Number of chains core 1 has started. */
    sends: nat)

  predicate ValidSlot(s: Slot)
  {
    |s.data| == BufSize && s.size + 4 <= BufSize
  }

  /** The buffers have their sizes and `newest` names one of the two compressed buffers. */
  predicate Buffers(p: Pipeline)
  {
    && |p.inputbuf| == BufSize && |p.framebuffer| == Dma.FrameBytes
    && ValidSlot(p.buffer0) && ValidSlot(p.buffer1)
    && (p.newest == 0 || p.newest == 1)
  }

  /** What every state between two steps satisfies. */
  predicate Valid(p: Pipeline)
  {
    && Buffers(p)
    && (p.frameInProgress ==> 4 <= p.count < p.compressedSize + 4 <= BufSize)
    && p.dmaLeft <= ChainWords
  }

  /** The globals as the C runtime zero-initialises them, before core 1 has started a chain. */
  function Initial(): (p: Pipeline)
    ensures Valid(p) && p.newest == 0 && !p.doorbell && !p.frameInProgress
  {
    var zeros := seq(BufSize, _ => 0);
    Pipeline(false, 0, 0, zeros, Slot(zeros, 0), Slot(zeros, 0), 0, false, zeros, false, 0, [], 0)
  }

  /** The little-endian `uint32_t` that `memcpy(&compressed_size, inputbuf, 4)` reads. */
  function HeaderValue(buf: seq<Byte>): U32
    requires |buf| >= 4
  {
    Le32(buf[0], buf[1], buf[2], buf[3])
  }

  // ---------------------------------------------------------------- core 0

  /** The start of a frame: `count` restarts from 0, the 4-byte read lands at the front of
      `inputbuf`, and `compressed_size` is read back from there. */
  function StartFrame(p: Pipeline, header: seq<Byte>): (q: Pipeline)
    requires |header| == 4 && |p.inputbuf| == BufSize
  {
    var buf := header + p.inputbuf[4..];
    p.(frameInProgress := true, inputbuf := buf, count := 0 + |header|, compressedSize := HeaderValue(buf))
  }

  /** `count += tud_vendor_read(inputbuf + count, compressed_size)`, the read having delivered
      `chunk`. */
  function Receive(p: Pipeline, chunk: seq<Byte>): (q: Pipeline)
    requires |p.inputbuf| == BufSize && p.count + |chunk| <= BufSize
  {
    p.(inputbuf := p.inputbuf[..p.count] + chunk + p.inputbuf[p.count + |chunk|..],
       count := p.count + |chunk|)
  }

  /** `memcpy(buffer.data, &inputbuf[4], compressed_size)` with the size recorded. */
  function Fill(s: Slot, inputbuf: seq<Byte>, size: U32): (r: Slot)
    requires |s.data| == BufSize && |inputbuf| == BufSize && size + 4 <= BufSize
  {
    Slot(inputbuf[4..4 + size] + s.data[size..], size)
  }

  /** The hand-off of a complete frame: the buffer other than the newest is filled, then the
      newest index is flipped to it and the doorbell rung; then `frame_in_progress` is cleared. */
  function Commit(p: Pipeline): (q: Pipeline)
    requires Buffers(p) && p.compressedSize + 4 <= BufSize
  {
    var handed :=
      if p.newest == 0 then
        p.(buffer1 := Fill(p.buffer1, p.inputbuf, p.compressedSize), newest := 1, doorbell := true)
      else if p.newest == 1 then
        p.(buffer0 := Fill(p.buffer0, p.inputbuf, p.compressedSize), newest := 0, doorbell := true)
      else
        p;
    handed.(frameInProgress := false)
  }

  /** The value of `count` and `compressed_size` a poll works with once its header (if any) is in. */
  function PollCount(p: Pipeline): nat
  {
    if p.frameInProgress then p.count else 4
  }

  function PollSize(p: Pipeline, header: seq<Byte>): nat
  {
    if p.frameInProgress || |header| < 4 then p.compressedSize else HeaderValue(header)
  }

  /** What one pass of the poll loop needs of the bytes TinyUSB delivers:
      the first read of a frame returns all 4 header bytes, the announced frame fits `BUFSIZE`
      together with its header, and the payload read stops at the end of the frame although
      it asks for `compressed_size` bytes. The code checks none of these. */
  predicate PollAllowed(p: Pipeline, mounted: bool, available: bool, header: seq<Byte>, chunk: seq<Byte>)
  {
    && Valid(p)
    && (mounted && available ==>
          && (!p.frameInProgress ==> |header| == 4)
          && PollSize(p, header) + 4 <= BufSize
          && PollCount(p) + |chunk| <= PollSize(p, header) + 4)
  }

  /** The header (when a frame starts) and the payload read of one poll, before the commit
      test: the hand-off state and core 1's state are not touched. */
  function Assemble(p: Pipeline, header: seq<Byte>, chunk: seq<Byte>): (q: Pipeline)
    requires PollAllowed(p, true, true, header, chunk)
    ensures Buffers(q) && q.frameInProgress
    ensures q.count == PollCount(p) + |chunk| && q.compressedSize == PollSize(p, header)
    ensures q.count <= q.compressedSize + 4 <= BufSize
    ensures q == p.(frameInProgress := true, count := q.count, compressedSize := q.compressedSize,
                    inputbuf := q.inputbuf)
  {
    var q := if !p.frameInProgress then StartFrame(p, header) else p;
    Receive(q, chunk)
  }

  /** One pass of the poll loop of `main`: nothing happens unless the vendor interface is
      mounted and has data; the commit test compares in 32-bit arithmetic. Core 1's state is
      never touched. */
  function ProducerPoll(p: Pipeline, mounted: bool, available: bool, header: seq<Byte>, chunk: seq<Byte>): (r: Pipeline)
    requires PollAllowed(p, mounted, available, header, chunk)
    ensures Valid(r)
    ensures r.framebuffer == p.framebuffer && r.atDmaWait == p.atDmaWait
    ensures r.dmaLeft == p.dmaLeft && r.sent == p.sent && r.sends == p.sends
  {
    if !mounted || !available then p
    else
      var q := Assemble(p, header, chunk);
      if q.count == (q.compressedSize + 4) % U32Range then Commit(q) else q
  }

  /** A frame is started with `compressed_size` the little-endian value of the 4 header bytes
      and `count` counting from 0 the header and the bytes read after it. */
  lemma PollStartsFrame(p: Pipeline, header: seq<Byte>, chunk: seq<Byte>)
    requires PollAllowed(p, true, true, header, chunk) && !p.frameInProgress
    ensures ProducerPoll(p, true, true, header, chunk).compressedSize
              == Le32(header[0], header[1], header[2], header[3])
    ensures ProducerPoll(p, true, true, header, chunk).frameInProgress ==>
              ProducerPoll(p, true, true, header, chunk).count == 0 + 4 + |chunk|
  {
  }

  /** A frame commits exactly when `count` reaches `compressed_size + 4`, and a poll with data
      leaves `frame_in_progress` set exactly when it did not commit. */
  lemma CommitExactly(p: Pipeline, header: seq<Byte>, chunk: seq<Byte>)
    requires PollAllowed(p, true, true, header, chunk)
    ensures var r := ProducerPoll(p, true, true, header, chunk);
      && (r.newest != p.newest <==> PollCount(p) + |chunk| == PollSize(p, header) + 4)
      && (r.frameInProgress <==> r.newest == p.newest)
      && (r.frameInProgress ==> r.count == PollCount(p) + |chunk| && r.compressedSize == PollSize(p, header))
  {
  }

  /** A commit copies `inputbuf[4 .. 4 + compressed_size]` into the buffer other than the old
      newest one, records the size there, leaves the newest buffer alone, makes the filled
      buffer the newest and rings the doorbell. */
  lemma CommitHandsOver(p: Pipeline, header: seq<Byte>, chunk: seq<Byte>)
    requires PollAllowed(p, true, true, header, chunk)
    requires PollCount(p) + |chunk| == PollSize(p, header) + 4
    ensures var r := ProducerPoll(p, true, true, header, chunk);
      var cs := PollSize(p, header);
      var filled := if r.newest == 0 then r.buffer0 else r.buffer1;
      && r.newest == 1 - p.newest && r.doorbell && !r.frameInProgress
      && filled.size == cs && filled.data[..cs] == r.inputbuf[4..4 + cs]
      && (if p.newest == 0 then r.buffer0 == p.buffer0 else r.buffer1 == p.buffer1)
  {
    var r := ProducerPoll(p, true, true, header, chunk);
    var cs := PollSize(p, header);
    var filled := if r.newest == 0 then r.buffer0 else r.buffer1;
    assert filled.data[..cs] == r.inputbuf[4..4 + cs];
  }

  /** The payload bytes a poll brings in land after the bytes already received. */
  lemma PollKeepsReceived(p: Pipeline, header: seq<Byte>, chunk: seq<Byte>)
    requires PollAllowed(p, true, true, header, chunk) && p.frameInProgress
    ensures ProducerPoll(p, true, true, header, chunk).inputbuf[..p.count + |chunk|]
              == p.inputbuf[..p.count] + chunk
  {
    var q := Receive(p, chunk);
    assert q.inputbuf[..p.count + |chunk|] == p.inputbuf[..p.count] + chunk;
  }

  /** The length-prefixed message the host writes (usb-display-host's framing), delivered in one
      poll, commits exactly the compressed bytes it carries. */
  lemma FramingRoundTrip(p: Pipeline, compressed: seq<Byte>)
    requires Valid(p) && !p.frameInProgress && |compressed| + 4 <= BufSize
    ensures var m := Host.FrameMessage(compressed);
      && PollAllowed(p, true, true, m[..4], m[4..])
      && var r := ProducerPoll(p, true, true, m[..4], m[4..]);
         var filled := if r.newest == 0 then r.buffer0 else r.buffer1;
         && r.newest == 1 - p.newest && r.doorbell && !r.frameInProgress
         && filled.size == |compressed| && filled.data[..|compressed|] == compressed
  {
    var m := Host.FrameMessage(compressed);
    var header, chunk := m[..4], m[4..];
    assert HeaderValue(header) == |compressed|;
    CommitHandsOver(p, header, chunk);
    var q := StartFrame(p, header);
    var r := Receive(q, chunk);
    assert r.inputbuf[4..4 + |compressed|] == chunk;
  }

  /** A poll that does not commit leaves the hand-off state alone. */
  lemma PollWithoutCommit(p: Pipeline, mounted: bool, available: bool, header: seq<Byte>, chunk: seq<Byte>)
    requires PollAllowed(p, mounted, available, header, chunk)
    ensures var r := ProducerPoll(p, mounted, available, header, chunk);
      r.newest == p.newest ==>
        && r.buffer0 == p.buffer0 && r.buffer1 == p.buffer1 && r.doorbell == p.doorbell
  {
  }

  // ---------------------------------------------------------------- core 1

  /** What `ZSTD_decompress(framebuffer, 76800, ...)` leaves behind: the bytes it wrote at the
      front of its destination, and whether it returned an error code. zstd decodes block by
      block straight into the destination, so a corrupt later block, a checksum mismatch or
      content larger than the destination still leaves the blocks decoded before the error in
      place. */
  datatype Decoded = Decoded(written: seq<Byte>, isError: bool)

  /** The framebuffer after a decompression: the written bytes overwrite its front, never past
      the 76800 bytes of capacity given to zstd, and the rest is what it was. The code ignores the
      returned `dsize`, so success and failure are not told apart. */
  function Decompress(framebuffer: seq<Byte>, out: Decoded): (fb: seq<Byte>)
    ensures |fb| == |framebuffer|
    ensures var n := if |out.written| <= |framebuffer| then |out.written| else |framebuffer|;
      fb[..n] == out.written[..n] && fb[n..] == framebuffer[n..]
    ensures out.written == [] ==> fb == framebuffer
    ensures |framebuffer| <= |out.written| ==> fb == out.written[..|framebuffer|]
  {
    if |out.written| <= |framebuffer| then out.written + framebuffer[|out.written|..]
    else out.written[..|framebuffer|]
  }

  /** The returned size is dropped: an error leaves exactly the framebuffer a success that wrote
      the same bytes would. */
  lemma DecompressIgnoresError(framebuffer: seq<Byte>, written: seq<Byte>)
    ensures Decompress(framebuffer, Decoded(written, true)) == Decompress(framebuffer, Decoded(written, false))
  {
  }

  /** The compressed bytes a buffer offers to the decompressor. */
  function Payload(s: Slot): seq<Byte>
    requires ValidSlot(s)
  {
    s.data[..s.size]
  }

  /** `dma_channel_is_busy` for the framebuffer channel and for the zero channel it chains to. */
  predicate ImageChannelBusy(p: Pipeline)
  {
    p.dmaLeft > ChainWords - Dma.FrameWords
  }

  predicate ZeroChannelBusy(p: Pipeline)
  {
    0 < p.dmaLeft <= ChainWords - Dma.FrameWords
  }

  /** The doorbell branch of `core1_entry`, up to the busy-wait: clear the doorbell, then
      decompress the newest buffer with its recorded size. */
  function Pickup(p: Pipeline, decode: seq<Byte> -> Decoded): (q: Pipeline)
    requires Valid(p)
  {
    var cleared := p.(doorbell := false);
    var fb :=
      if p.newest == 0 then Decompress(p.framebuffer, decode(Payload(p.buffer0)))
      else if p.newest == 1 then Decompress(p.framebuffer, decode(Payload(p.buffer1)))
      else p.framebuffer;
    cleared.(framebuffer := fb, atDmaWait := true)
  }

  /** `reset_full_frame_pio(); send_full_frame_image(framebuffer);`: the state machines are
      re-charged (see Pio.Block.ResetAndCharge) and a new chain starts. */
  function Send(p: Pipeline): (q: Pipeline)
  {
    p.(atDmaWait := false, dmaLeft := ChainWords, sent := [], sends := p.sends + 1)
  }

  /** One step of core 1: outside the doorbell branch it only polls the doorbell; at the
      busy-wait it spins while either DMA channel is busy and sends once both are idle. */
  function ConsumerStep(p: Pipeline, decode: seq<Byte> -> Decoded): (r: Pipeline)
    requires Valid(p)
    ensures Valid(r)
  {
    if !p.atDmaWait then
      if p.doorbell then Pickup(p, decode) else p
    else if ImageChannelBusy(p) || ZeroChannelBusy(p) then p
    else Send(p)
  }

  /** One DREQ-paced word of the DMA chain: the word read from the framebuffer as it is now. */
  function DmaStep(p: Pipeline): (r: Pipeline)
    requires Valid(p)
    ensures Valid(r)
  {
    if p.dmaLeft == 0 then p
    else
      var k := ChainWords - p.dmaLeft;
      p.(sent := p.sent + [Dma.Stream(Dma.ClientChain(p.framebuffer))[k]], dmaLeft := p.dmaLeft - 1)
  }

  /** A pickup happens exactly when core 1 is outside the busy-wait and the doorbell is set; it
      clears the doorbell and decompresses the buffer `newest` names, with its recorded size. */
  lemma PickupReadsNewest(p: Pipeline, decode: seq<Byte> -> Decoded)
    requires Valid(p)
    ensures var r := ConsumerStep(p, decode);
      && (r.atDmaWait && !p.atDmaWait <==> p.doorbell && !p.atDmaWait)
      && (p.doorbell && !p.atDmaWait ==>
            && !r.doorbell
            && r.framebuffer == Decompress(p.framebuffer,
                 decode(if p.newest == 0 then Payload(p.buffer0) else Payload(p.buffer1))))
      && (!(p.doorbell && !p.atDmaWait) ==> r.framebuffer == p.framebuffer && r.doorbell == p.doorbell)
  {
  }

  /** The doorbell is one bit: with it clear and core 1 outside the busy-wait, core 1 does
      nothing, however many commits rang it before the last pickup. */
  lemma NoPickupWithoutDoorbell(p: Pipeline, decode: seq<Byte> -> Decoded)
    requires Valid(p) && !p.doorbell && !p.atDmaWait
    ensures ConsumerStep(p, decode) == p
  {
  }

  /** Re-charging and re-sending happen only once both DMA channels of the previous chain are
      idle, and they start a complete new chain. */
  lemma SendOnlyWhenIdle(p: Pipeline, decode: seq<Byte> -> Decoded)
    requires Valid(p)
    ensures var r := ConsumerStep(p, decode);
      r.sends != p.sends ==>
        && p.atDmaWait && !ImageChannelBusy(p) && !ZeroChannelBusy(p) && p.dmaLeft == 0
        && r.sends == p.sends + 1 && r.dmaLeft == ChainWords && r.sent == [] && !r.atDmaWait
    ensures var r := ConsumerStep(p, decode);
      p.atDmaWait && p.dmaLeft == 0 ==> r.sends == p.sends + 1
  {
  }

  /** Core 1 and the DMA never touch the producer's state or the hand-off index. */
  lemma ConsumerKeepsProducerState(p: Pipeline, decode: seq<Byte> -> Decoded)
    requires Valid(p)
    ensures var r := ConsumerStep(p, decode);
      && r.frameInProgress == p.frameInProgress && r.count == p.count
      && r.compressedSize == p.compressedSize && r.inputbuf == p.inputbuf
      && r.buffer0 == p.buffer0 && r.buffer1 == p.buffer1 && r.newest == p.newest
    ensures var r := DmaStep(p);
      r == p.(sent := r.sent, dmaLeft := r.dmaLeft)
  {
  }

  /** Latest wins: two frames committed before core 1 picks up mean it decompresses the second
      one's bytes, and the first is never read; the doorbell is then clear. */
  lemma LatestWins(p: Pipeline, first: seq<Byte>, second: seq<Byte>, decode: seq<Byte> -> Decoded)
    requires Valid(p) && !p.frameInProgress && !p.atDmaWait
    requires |first| + 4 <= BufSize && |second| + 4 <= BufSize
    ensures var m1 := Host.FrameMessage(first);
      var m2 := Host.FrameMessage(second);
      && PollAllowed(p, true, true, m1[..4], m1[4..])
      && var q1 := ProducerPoll(p, true, true, m1[..4], m1[4..]);
         && PollAllowed(q1, true, true, m2[..4], m2[4..])
         && var q2 := ProducerPoll(q1, true, true, m2[..4], m2[4..]);
            var r := ConsumerStep(q2, decode);
            && r.framebuffer == Decompress(p.framebuffer, decode(second))
            && !r.doorbell && r.newest == p.newest
  {
    var m1 := Host.FrameMessage(first);
    var m2 := Host.FrameMessage(second);
    FramingRoundTrip(p, first);
    var q1 := ProducerPoll(p, true, true, m1[..4], m1[4..]);
    PollWithoutCommit(p, true, true, m1[..4], m1[4..]);
    FramingRoundTrip(q1, second);
    var q2 := ProducerPoll(q1, true, true, m2[..4], m2[4..]);
    PollWithoutCommit(q1, true, true, m2[..4], m2[4..]);
    var filled := if q2.newest == 0 then q2.buffer0 else q2.buffer1;
    assert Payload(filled) == second;
    PickupReadsNewest(q2, decode);
  }

  // ---------------------------------------------------------------- the DMA stream

  /** The chain in flight has so far written the prefix of the client chain over the current
      framebuffer. */
  predicate Streaming(p: Pipeline)
    requires Valid(p)
  {
    |p.sent| + p.dmaLeft == ChainWords
    && p.sent == Dma.Stream(Dma.ClientChain(p.framebuffer))[..|p.sent|]
  }

  /** Starting a chain, moving it on by one word, and a poll of core 0 all keep the stream in
      step with the framebuffer; so does core 1 as long as it does not decompress. */
  lemma StreamingPreserved(p: Pipeline, decode: seq<Byte> -> Decoded)
    requires Valid(p)
    ensures Streaming(p) ==> Streaming(DmaStep(p))
    ensures Streaming(p) && ConsumerStep(p, decode).framebuffer == p.framebuffer ==>
      Streaming(ConsumerStep(p, decode))
    ensures p.atDmaWait && p.dmaLeft == 0 ==> Streaming(ConsumerStep(p, decode))
  {
    if Streaming(p) && p.dmaLeft > 0 {
      var s := Dma.Stream(Dma.ClientChain(p.framebuffer));
      assert s[..|p.sent| + 1] == s[..|p.sent|] + [s[|p.sent|]];
    }
  }

  lemma PollKeepsStreaming(p: Pipeline, mounted: bool, available: bool, header: seq<Byte>, chunk: seq<Byte>)
    requires PollAllowed(p, mounted, available, header, chunk) && Streaming(p)
    ensures Streaming(ProducerPoll(p, mounted, available, header, chunk))
  {
    StreamingOfDmaState(p, ProducerPoll(p, mounted, available, header, chunk));
  }

  /** Whether the chain is in step depends only on the framebuffer and the DMA's progress. */
  lemma StreamingOfDmaState(p: Pipeline, r: Pipeline)
    requires Valid(p) && Valid(r) && Streaming(p)
    requires r.framebuffer == p.framebuffer && r.sent == p.sent && r.dmaLeft == p.dmaLeft
    ensures Streaming(r)
  {
  }

  /** A chain that ran to its end while the framebuffer held still wrote the framebuffer's
      19200 words and then one row of 30 zero words. */
  lemma CompletedChain(p: Pipeline)
    requires Valid(p) && Streaming(p) && p.dmaLeft == 0
    ensures p.sent[..Dma.FrameWords] == Dma.WordsOf(p.framebuffer)
    ensures forall k | Dma.FrameWords <= k < ChainWords :: p.sent[k] == 0
  {
    Dma.ClientStream(p.framebuffer);
    Pio.WordsPerFrame();
  }

  // ---------------------------------------------------------------- the globals, in place

  /** `memcpy(dst, &src[srcOffset], n)` between two distinct buffers. */
  method MemCopy(dst: array<Byte>, src: array<Byte>, srcOffset: nat, n: nat)
    requires dst != src && n <= dst.Length && srcOffset + n <= src.Length
    modifies dst
    ensures dst[..] == src[srcOffset..srcOffset + n] + old(dst[n..])
  {
    for i := 0 to n
      invariant dst[..i] == src[srcOffset..srcOffset + i]
      invariant dst[i..] == old(dst[i..])
    {
      dst[i] := src[srcOffset + i];
      assert dst[..i + 1] == dst[..i] + [dst[i]];
    }
    assert dst[..] == dst[..n] + dst[n..];
  }

  /** Bytes arriving in a buffer at an offset (a TinyUSB read, or decompressed output). */
  method WriteAt(dst: array<Byte>, offset: nat, bytes: seq<Byte>)
    requires offset + |bytes| <= dst.Length
    modifies dst
    ensures dst[..] == old(dst[..offset]) + bytes + old(dst[offset + |bytes|..])
  {
    for i := 0 to |bytes|
      invariant dst[..offset] == old(dst[..offset])
      invariant dst[offset..offset + i] == bytes[..i]
      invariant dst[offset + i..] == old(dst[offset + i..])
    {
      dst[offset + i] := bytes[i];
      assert dst[offset..offset + i + 1] == dst[offset..offset + i] + [dst[offset + i]];
    }
    assert dst[..] == dst[..offset] + dst[offset..offset + |bytes|] + dst[offset + |bytes|..];
  }

  /** The client's globals: core 0's frame assembly state, the two compressed buffers, the
      hand-off index and doorbell, the framebuffer, and the PIO block and DMA chain of core 1. */
  class Client {
    var frameInProgress: bool
    var count: U32
    var compressedSize: U32
    const inputbuf: array<Byte>
    const data0: array<Byte>
    var size0: U32
    const data1: array<Byte>
    var size1: U32
    var newest: int
    var doorbell: bool
    const framebuffer: array<Byte>
    var atDmaWait: bool
    var dmaLeft: nat
    var sent: seq<U32>
    var sends: nat
    const pio: Pio.Block

    /** The buffers are four separate arrays. */
    ghost predicate Separate()
      reads this
    {
      && inputbuf != data0 && inputbuf != data1 && inputbuf != framebuffer
      && data0 != data1 && data0 != framebuffer && data1 != framebuffer
    }

    /** The globals as a value of the step model. */
    function State(): Pipeline
      reads this, inputbuf, data0, data1, framebuffer
    {
      Pipeline(frameInProgress, count, compressedSize, inputbuf[..], Slot(data0[..], size0),
               Slot(data1[..], size1), newest, doorbell, framebuffer[..], atDmaWait, dmaLeft, sent, sends)
    }

    constructor ()
      ensures Separate() && pio.Valid() && State() == Initial()
    {
      frameInProgress, count, compressedSize := false, 0, 0;
      inputbuf := new Byte[BufSize](_ => 0);
      data0 := new Byte[BufSize](_ => 0);
      data1 := new Byte[BufSize](_ => 0);
      framebuffer := new Byte[BufSize](_ => 0);
      size0, size1, newest, doorbell := 0, 0, 0, false;
      atDmaWait, dmaLeft, sent, sends := false, 0, [], 0;
      pio := new Pio.Block();
    }

    /** One pass of core 0's poll loop (`main`, the body of `while (1)`). */
    method Poll(mounted: bool, available: bool, header: seq<Byte>, chunk: seq<Byte>)
      requires Separate() && PollAllowed(State(), mounted, available, header, chunk)
      modifies this, inputbuf, data0, data1
      ensures State() == ProducerPoll(old(State()), mounted, available, header, chunk)
    {
      if !mounted || !available {
        return;
      }
      if !frameInProgress {
        BeginFrame(header);
      }
      ReadPayload(chunk);
      if count == (compressedSize + 4) % U32Range {
        HandOver();
      }
    }

    /** The start of a frame in the poll loop: reset, read the 4-byte header, take its value. */
    method BeginFrame(header: seq<Byte>)
      requires Separate() && |header| == 4 && inputbuf.Length == BufSize
      modifies this, inputbuf
      ensures State() == StartFrame(old(State()), header)
    {
      frameInProgress := true;
      compressedSize := 0;
      count := 0;
      WriteAt(inputbuf, 0, header);
      count := count + |header|;
      compressedSize := Le32(inputbuf[0], inputbuf[1], inputbuf[2], inputbuf[3]);
    }

    /** `count += tud_vendor_read(inputbuf + count, compressed_size)`. */
    method ReadPayload(chunk: seq<Byte>)
      requires Separate() && inputbuf.Length == BufSize && count + |chunk| <= BufSize
      modifies this, inputbuf
      ensures State() == Receive(old(State()), chunk)
    {
      WriteAt(inputbuf, count, chunk);
      count := count + |chunk|;
    }

    /** The hand-off of a complete frame to core 1. */
    method HandOver()
      requires Separate() && Buffers(State()) && compressedSize + 4 <= BufSize
      modifies this, data0, data1
      ensures State() == Commit(old(State()))
    {
      if newest == 0 {
        MemCopy(data1, inputbuf, 4, compressedSize);
        size1 := compressedSize;
        newest := 1;
        doorbell := true;
      } else if newest == 1 {
        MemCopy(data0, inputbuf, 4, compressedSize);
        size0 := compressedSize;
        newest := 0;
        doorbell := true;
      }
      frameInProgress := false;
    }

    /** One step of `core1_entry`'s loop: the doorbell branch up to the busy-wait, one spin of
        the busy-wait, or the re-charge and re-send once both channels are idle. */
    method Core1Step(decode: seq<Byte> -> Decoded)
      requires Separate() && pio.Valid() && Valid(State())
      modifies this, framebuffer, pio.vertical, pio.gen, pio.horizData, pio
      ensures State() == ConsumerStep(old(State()), decode)
      ensures sends != old(sends) ==> pio.Charged() && pio.irqForced
    {
      if !atDmaWait {
        if doorbell {
          PickupNewest(decode);
        }
      } else if dmaLeft > ChainWords - Dma.FrameWords || 0 < dmaLeft <= ChainWords - Dma.FrameWords {
        // spinning on dma_channel_is_busy
      } else {
        Resend();
      }
    }

    /** The doorbell branch of `core1_entry` up to the busy-wait. */
    method PickupNewest(decode: seq<Byte> -> Decoded)
      requires Separate() && Valid(State())
      modifies this, framebuffer
      ensures State() == Pickup(old(State()), decode)
    {
      doorbell := false;
      if newest == 0 {
        DecompressInto(framebuffer, decode(data0[..size0]));
      } else if newest == 1 {
        DecompressInto(framebuffer, decode(data1[..size1]));
      }
      atDmaWait := true;
    }

    /** `reset_full_frame_pio(); send_full_frame_image(framebuffer);` */
    method Resend()
      requires pio.Valid()
      modifies this, pio.vertical, pio.gen, pio.horizData, pio
      ensures State() == Send(old(State()))
      ensures pio.Charged() && pio.irqForced
    {
      pio.ResetAndCharge();
      pio.ForceIrq0();
      atDmaWait := false;
      dmaLeft := ChainWords;
      sent := [];
      sends := sends + 1;
    }

    /** One word of the DMA chain moved into the horiz-data FIFO. */
    method DmaTick()
      requires Valid(State())
      modifies this
      ensures State() == DmaStep(old(State()))
    {
      if dmaLeft > 0 {
        var k := ChainWords - dmaLeft;
        var word: U32 := 0;
        if k < Dma.FrameWords {
          word := Le32(framebuffer[4 * k], framebuffer[4 * k + 1], framebuffer[4 * k + 2], framebuffer[4 * k + 3]);
        }
        Dma.ClientStreamWord(framebuffer[..], k);
        sent := sent + [word];
        dmaLeft := dmaLeft - 1;
      }
    }
  }

  /** `ZSTD_decompress(framebuffer, 76800, ...)` as the decompressor's result lands. */
  method DecompressInto(framebuffer: array<Byte>, out: Decoded)
    modifies framebuffer
    ensures framebuffer[..] == Decompress(old(framebuffer[..]), out)
  {
    if |out.written| <= framebuffer.Length {
      WriteAt(framebuffer, 0, out.written);
    } else {
      WriteAt(framebuffer, 0, out.written[..framebuffer.Length]);
    }
  }
}
