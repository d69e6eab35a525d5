/** DMA chains that feed the horiz-data state machine's TX FIFO: a primary channel of 32-bit
    transfers chained to a second channel that sends a fixed word. Only the stream of words a
    chain writes into the FIFO is modelled, not DREQ pacing or timing. */
module Dma {
  import opened Common
  import Pio

  /** Where a channel reads: consecutive words (read increment on) or one word over and
      over (read increment off). */
  datatype Source = Incrementing(words: seq<U32>) | Fixed(word: U32)

  /** One `dma_channel_configure` call: its source and its transfer count of 32-bit words. */
  datatype Transfer = Transfer(source: Source, count: nat)

  /** A primary transfer whose `chain_to` starts the padding transfer when it finishes. */
  datatype Chain = Chain(primary: Transfer, padding: Transfer)

  predicate Readable(t: Transfer)
  {
    t.source.Incrementing? ==> t.count <= |t.source.words|
  }

  /** The words a transfer writes, in order. */
  function Emitted(t: Transfer): (w: seq<U32>)
    requires Readable(t)
    ensures |w| == t.count
    ensures forall k | 0 <= k < t.count ::
      w[k] == (if t.source.Incrementing? then t.source.words[k] else t.source.word)
  {
    match t.source
    case Incrementing(ws) => ws[..t.count]
    case Fixed(v) => seq(t.count, _ => v)
  }

  /** The words a chain writes: the primary transfer, then (after the chain trigger) the
      padding transfer. */
  function Stream(c: Chain): (w: seq<U32>)
    requires Readable(c.primary) && Readable(c.padding)
    ensures |w| == c.primary.count + c.padding.count
  {
    Emitted(c.primary) + Emitted(c.padding)
  }

  /** Bytes of a framebuffer as the 32-bit little-endian words a DMA read of it sees. */
  function WordsOf(bytes: seq<Byte>): (w: seq<U32>)
    requires |bytes| % 4 == 0
    ensures |w| == |bytes| / 4
    ensures forall k | 0 <= k < |w| ::
      w[k] == Le32(bytes[4 * k], bytes[4 * k + 1], bytes[4 * k + 2], bytes[4 * k + 3])
  {
    seq(|bytes| / 4, k requires 0 <= k < |bytes| / 4 =>
      Le32(bytes[4 * k], bytes[4 * k + 1], bytes[4 * k + 2], bytes[4 * k + 3]))
  }

  /** Size of a framebuffer in bytes: 320 rows of 240 bytes. */
  const FrameBytes: nat := 76800

  /** 320 * 240 / 4: the primary transfer count of every chain. */
  const FrameWords: nat := 19200

  /** The USB client's chain (`send_full_frame_image`): the framebuffer, then 120 / 4 zeros. */
  function ClientChain(framebuffer: seq<Byte>): (c: Chain)
    requires |framebuffer| == FrameBytes
    ensures Readable(c.primary) && Readable(c.padding)
  {
    Chain(Transfer(Incrementing(WordsOf(framebuffer)), FrameWords), Transfer(Fixed(0), 120 / 4))
  }

  /** The client's stream is the whole framebuffer followed by exactly one outer horiz-data
      loop of zeros: 641 loops of 30 words, the last of them all zero. */
  lemma ClientStream(framebuffer: seq<Byte>)
    requires |framebuffer| == FrameBytes
    ensures Stream(ClientChain(framebuffer))[..FrameWords] == WordsOf(framebuffer)
    ensures |Stream(ClientChain(framebuffer))| == Pio.LoopRuns(Pio.HorizRows) * Pio.WordsPerRow()
    ensures forall k | (Pio.LoopRuns(Pio.HorizRows) - 1) * Pio.WordsPerRow() <= k < FrameWords + 30 ::
      Stream(ClientChain(framebuffer))[k] == 0
  {
    Pio.WordsPerFrame();
    var c := ClientChain(framebuffer);
    assert Emitted(c.primary) == WordsOf(framebuffer);
    assert Stream(c)[..FrameWords] == Emitted(c.primary);
    forall k | FrameWords <= k < FrameWords + 30
      ensures Stream(c)[k] == 0
    {
      assert Stream(c)[k] == Emitted(c.padding)[k - FrameWords];
    }
  }

  /** Word k of the client's stream, as the DMA reads it. */
  lemma ClientStreamWord(framebuffer: seq<Byte>, k: nat)
    requires |framebuffer| == FrameBytes && k < FrameWords + 30
    ensures Stream(ClientChain(framebuffer))[k] ==
      if k < FrameWords then
        Le32(framebuffer[4 * k], framebuffer[4 * k + 1], framebuffer[4 * k + 2], framebuffer[4 * k + 3])
      else 0
  {
    var c := ClientChain(framebuffer);
    if k < FrameWords {
      assert Stream(c)[k] == Emitted(c.primary)[k];
    } else {
      assert Stream(c)[k] == Emitted(c.padding)[k - FrameWords];
    }
  }

  /** A chain whose padding is 240 / 4 words, as sharpie-sw and sharpie-rp2040 configure it:
      60 words of zeros, one outer horiz-data loop more than the 641 loops take. */
  function PaddedChain(primary: Source): (c: Chain)
    requires primary.Incrementing? ==> FrameWords <= |primary.words|
    ensures Readable(c.primary) && Readable(c.padding)
  {
    Chain(Transfer(primary, FrameWords), Transfer(Fixed(0), 240 / 4))
  }

  /** The framebuffer chain both sharpie-sw (red frame) and sharpie-rp2040 configure: the
      framebuffer read with increment, then the 60 zero words. */
  function FramebufferChain(framebuffer: seq<Byte>): (c: Chain)
    requires |framebuffer| == FrameBytes
    ensures Readable(c.primary) && Readable(c.padding)
  {
    PaddedChain(Incrementing(WordsOf(framebuffer)))
  }

  /** A 60-word padding overshoots what the charged horiz-data loop consumes by one row. */
  lemma PaddedStreamLength(primary: Source)
    requires primary.Incrementing? ==> FrameWords <= |primary.words|
    ensures |Stream(PaddedChain(primary))| == Pio.LoopRuns(Pio.HorizRows) * Pio.WordsPerRow() + 30
    ensures forall k | FrameWords <= k < |Stream(PaddedChain(primary))| :: Stream(PaddedChain(primary))[k] == 0
  {
    Pio.WordsPerFrame();
    var c := PaddedChain(primary);
    forall k | FrameWords <= k < |Stream(c)|
      ensures Stream(c)[k] == 0
    {
      assert Stream(c)[k] == Emitted(c.padding)[k - FrameWords];
    }
  }
}
