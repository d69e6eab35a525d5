/** sharpie-rp2040: the RP2040 test program. It fills a 320 x 240 formatted framebuffer with 0xff,
    loads and charges the three display state machines of PIO 0, chains a DMA transfer of the
    framebuffer to 240 / 4 zero words, restarts the state-machine clocks together and forces IRQ 0
    once the button reads high. The button is a sequence of readings given as a parameter; a
    `gpio_get` poll takes the next one. */
module Rp2040 {
  import opened Common
  import Pio
  import Dma

  /** Rows and bytes per row of `formatted_framebuffer[320][240]`. */
  const Rows: nat := 320
  const RowBytes: nat := 240

  /** The byte the fill loop writes. */
  const Fill: Byte := 0xFF

  /** What the program does that is seen from outside the CPU, in order. */
  datatype Event = ClockRestart(mask: bv4) | IrqForce

  /** Index, in the row-major layout the DMA reads, of `formatted_framebuffer[i][j]`. */
  function Index(i: nat, j: nat): (k: nat)
    requires i < Rows && j < RowBytes
    ensures k < Rows * RowBytes
  {
    i * 240 + j
  }

  /** With the filled framebuffer the chain sends 19200 all-ones words and then 60 zero words,
      one outer horiz-data loop more than the charged program takes. */
  lemma FilledFrameStream(framebuffer: seq<Byte>)
    requires |framebuffer| == Dma.FrameBytes && forall k | 0 <= k < |framebuffer| :: framebuffer[k] == Fill
    ensures |Dma.Stream(Dma.FramebufferChain(framebuffer))| == Dma.FrameWords + 60
      == Pio.LoopRuns(Pio.HorizRows) * Pio.WordsPerRow() + 30
    ensures forall k | 0 <= k < Dma.FrameWords ::
      Dma.Stream(Dma.FramebufferChain(framebuffer))[k] == Le32(Fill, Fill, Fill, Fill) == U32Range - 1
    ensures forall k | Dma.FrameWords <= k < Dma.FrameWords + 60 :: Dma.Stream(Dma.FramebufferChain(framebuffer))[k] == 0
  {
    var c := Dma.FramebufferChain(framebuffer);
    assert Le32(Fill, Fill, Fill, Fill) == 255 + 256 * (255 + 256 * (255 + 256 * 255));
    Dma.PaddedStreamLength(c.primary.source);
    Pio.WordsPerFrame();
    forall k | 0 <= k < Dma.FrameWords
      ensures Dma.Stream(c)[k] == Le32(Fill, Fill, Fill, Fill)
    {
      assert Dma.Stream(c)[k] == Dma.Emitted(c.primary)[k];
    }
  }

  /** The globals and the hardware: PIO 0, the framebuffer, the configured chain and the log. */
  class Board {
    const pio: Pio.Block
    const framebuffer: array<Byte>
    var chain: Option<Dma.Chain>
    var events: seq<Event>

    ghost predicate Valid()
    {
      pio.Valid() && framebuffer.Length == Rows * RowBytes
    }

    /** Reset state: zero-initialised globals, nothing loaded. */
    constructor ()
      ensures Valid() && fresh(framebuffer)
      ensures fresh(pio.vertical) && fresh(pio.gen) && fresh(pio.horizData)
      ensures !pio.programsLoaded && !pio.irqForced && chain == None && events == []
    {
      pio := new Pio.Block();
      framebuffer := new Byte[Rows * RowBytes](_ => 0);
      chain := None;
      events := [];
    }

    /** The nested fill loop of :39-44. The inner loop steps j by 2 and writes j and j + 1; since
        240 is even it stops at exactly 240, having covered every byte of the row. */
    method FillFramebuffer()
      requires Valid()
      modifies framebuffer
      ensures forall k | 0 <= k < framebuffer.Length :: framebuffer[k] == Fill
    {
      var i := 0;
      while i < Rows
        invariant i <= Rows
        invariant forall k | 0 <= k < i * 240 :: framebuffer[k] == Fill
      {
        var j := 0;
        while j < RowBytes
          invariant j <= RowBytes && j % 2 == 0
          invariant forall k | 0 <= k < i * 240 + j :: framebuffer[k] == Fill
        {
          framebuffer[Index(i, j)] := Fill;
          framebuffer[Index(i, j + 1)] := Fill;
          j := j + 2;
        }
        i := i + 1;
      }
    }

    /** The straight-line loading and charging of :61-121: the vertical state machine is
        initialised and charged before the GEN and horiz-data machines are initialised, and those
        two are charged after all three programs are loaded. */
    method LoadAndCharge()
      requires Valid()
      modifies pio, pio.vertical, pio.gen, pio.horizData
      ensures pio.programsLoaded && pio.irqForced == old(pio.irqForced) && pio.Charged()
    {
      pio.AddPrograms();
      pio.vertical.Init();
      Pio.ChargeVertical(pio.vertical);
      pio.gen.Init();
      pio.horizData.Init();
      Pio.ChargeGen(pio.gen);
      Pio.ChargeHorizData(pio.horizData);
    }

    /** The polling loop of :166-174 over the button readings: IRQ 0 is forced at the first high
        reading and the loop left; while the readings stay low nothing is forced. Returns the
        number of polls made. */
    method WaitForButton(readings: seq<bool>) returns (polls: nat)
      modifies this, pio
      ensures polls <= |readings|
      ensures true in readings ==> 1 <= polls && readings[polls - 1] && true !in readings[..polls - 1]
      ensures true !in readings ==> polls == |readings|
      ensures pio.irqForced == (old(pio.irqForced) || true in readings)
      ensures events == old(events) + (if true in readings then [IrqForce] else [])
      ensures pio.programsLoaded == old(pio.programsLoaded) && chain == old(chain)
    {
      polls := 0;
      while polls < |readings|
        invariant polls <= |readings| && true !in readings[..polls]
        invariant pio.irqForced == old(pio.irqForced) && events == old(events)
        invariant pio.programsLoaded == old(pio.programsLoaded)
      {
        var high := readings[polls];
        polls := polls + 1;
        if high {
          pio.ForceIrq0();
          events := events + [IrqForce];
          assert readings[..polls - 1] == readings[..polls][..polls - 1];
          return;
        }
        assert readings[..polls] == readings[..polls - 1] + [readings[polls - 1]];
      }
      assert readings[..polls] == readings;
    }

    /** `main`, up to the final spin. */
    method Run(readings: seq<bool>) returns (polls: nat)
      requires Valid()
      modifies this, framebuffer, pio, pio.vertical, pio.gen, pio.horizData
      ensures forall k | 0 <= k < framebuffer.Length :: framebuffer[k] == Fill
      ensures pio.programsLoaded && pio.Charged()
      ensures chain == Some(Dma.FramebufferChain(framebuffer[..]))
      ensures events == old(events) + [ClockRestart(7)] + (if true in readings then [IrqForce] else [])
      ensures pio.irqForced == (old(pio.irqForced) || true in readings)
      ensures true in readings ==> 1 <= polls <= |readings| && readings[polls - 1] && true !in readings[..polls - 1]
    {
      Memset(framebuffer, 0);
      FillFramebuffer();
      LoadAndCharge();
      chain := Some(Dma.FramebufferChain(framebuffer[..]));
      events := events + [ClockRestart(7)];
      polls := WaitForButton(readings);
    }
  }
}
