/** sharpie-sw: the RP2350 bring-up program. It charges the display sequencers of PIO 0 and 1, sends
    a first frame, a white frame and a final frame through three chained DMA transfers, and runs
    VA/VB/VCOM from a PWM wrap interrupt. Sleeps, GPIO and PWM register set-up, `printf` and the PIO
    programs are not modelled; the order of the externally visible steps is, as a log of events. */
module SharpieSw {
  import opened Common
  import Pio
  import Dma

  /** `0b111111`, the byte the red framebuffer is filled with (white in 2-bit-per-channel colour). */
  const White: Byte := 0x3F

  /** `global_32bit_max`, the word the first frame's DMA reads over and over. */
  const GlobalMax: U32 := 0x3F

  /** GPIO numbers of the bias signals and of the 5 V enable. */
  const VaPin: nat := 12
  const VbVcomPin: nat := 13
  const FiveVoltPin: nat := 16

  // ------------------------------------------------------------------ bias toggle

  /** The next value of `va_vb_vcom_tracker`. */
  function Toggle(t: nat): (r: nat)
    ensures r < 2 && (r == 1 <==> t == 0)
  {
    if t == 0 then 1 else 0
  }

  /** The tracker after n wrap interrupts, starting from t. */
  function TrackerAfter(t: nat, n: nat): nat
  {
    if n == 0 then t else Toggle(TrackerAfter(t, n - 1))
  }

  /** From its initial value 1 the tracker runs 1, 0, 1, 0, ...: after n interrupts it is 1
      exactly when n is even. */
  lemma {:induction false} TrackerAlternates(n: nat)
    ensures TrackerAfter(1, n) == (if n % 2 == 0 then 1 else 0)
  {
    if n > 0 {
      TrackerAlternates(n - 1);
    }
  }

  /** Two consecutive interrupts drive the pins to opposite levels each time and bring the
      tracker back to where it was, from any value in {0, 1}. */
  lemma {:induction false} TrackerPeriodTwo(t: nat, n: nat)
    requires t < 2
    ensures TrackerAfter(t, n + 2) == TrackerAfter(t, n)
    ensures TrackerAfter(t, n) < 2
  {
    if n > 0 {
      TrackerPeriodTwo(t, n - 1);
    }
  }

  // ------------------------------------------------------------------ power sequence

  /** The steps of `main` that the panel sees, in the order they happen. */
  datatype Event =
    | FiveVolt(on: bool)
    | ClockRestart(pio: nat, mask: bv4)
    | IrqForce(pio: nat)
    | Pwm(running: bool)
    | PinLow(pin: nat)

  /** Event a occurs somewhere before event b. */
  predicate Before(es: seq<Event>, a: Event, b: Event)
  {
    exists i, j | 0 <= i < j < |es| :: es[i] == a && es[j] == b
  }

  /** The events of `main`, from the clock restarts (:251-253) to 5 V off (:438). */
  function PowerSequence(): seq<Event>
  {
    [ClockRestart(0, 7), ClockRestart(1, 7), ClockRestart(2, 7),
     FiveVolt(true), IrqForce(0), Pwm(true), IrqForce(1), IrqForce(2), Pwm(false),
     PinLow(VaPin), PinLow(VbVcomPin), FiveVolt(false)]
  }

  /* `main` follows the panel's power-up and power-down flow, as the comment above `main` lays it
     out: 5 V rises, then the first (pixel-initialising) frame is sent, then VCOM/VB/VA start, then
     the image frame; to power down, the final frame is sent, then VCOM/VB/VA stop and both bias
     pins go low, and only then does 5 V go off. */

  /** Power-up: every clock restart and the 5 V rise come before the first frame, which comes
      before VCOM/VB/VA start. */
  lemma PowerUpOrder()
    ensures forall p | 0 <= p < 3 :: Before(PowerSequence(), ClockRestart(p, 7), IrqForce(0))
    ensures Before(PowerSequence(), FiveVolt(true), IrqForce(0))
    ensures Before(PowerSequence(), IrqForce(0), Pwm(true))
  {
    var es := PowerSequence();
    assert es[3] == FiveVolt(true) && es[4] == IrqForce(0) && es[5] == Pwm(true);
    forall p | 0 <= p < 3
      ensures Before(es, ClockRestart(p, 7), IrqForce(0))
    {
      assert es[p] == ClockRestart(p, 7);
    }
  }

  /** The image frame is sent while VCOM/VB/VA run, and the final frame after it, before they stop. */
  lemma FrameOrder()
    ensures Before(PowerSequence(), Pwm(true), IrqForce(1))
    ensures Before(PowerSequence(), IrqForce(1), IrqForce(2))
    ensures Before(PowerSequence(), IrqForce(2), Pwm(false))
  {
    var es := PowerSequence();
    assert es[5] == Pwm(true) && es[6] == IrqForce(1) && es[7] == IrqForce(2) && es[8] == Pwm(false);
  }

  /** Power-down: the PWM stops, then both bias pins are driven low, then 5 V goes off. */
  lemma PowerDownOrder()
    ensures Before(PowerSequence(), Pwm(false), PinLow(VaPin))
    ensures Before(PowerSequence(), Pwm(false), PinLow(VbVcomPin))
    ensures Before(PowerSequence(), PinLow(VaPin), FiveVolt(false))
    ensures Before(PowerSequence(), PinLow(VbVcomPin), FiveVolt(false))
  {
    var es := PowerSequence();
    assert es[8] == Pwm(false) && es[9] == PinLow(VaPin) && es[10] == PinLow(VbVcomPin) && es[11] == FiveVolt(false);
  }

  /** 5 V is raised once and dropped once, last; every restart mask of the sequence names exactly
      the three display state machines. */
  lemma PowerSequenceMasks()
    ensures forall k | 0 <= k < |PowerSequence()| && PowerSequence()[k].ClockRestart? ::
      forall sm | 0 <= sm < 4 :: Pio.MaskSelects(PowerSequence()[k].mask, sm) <==> sm < 3
    ensures forall k | 0 <= k < |PowerSequence()| - 1 :: PowerSequence()[k] != FiveVolt(false)
    ensures PowerSequence()[|PowerSequence()| - 1] == FiveVolt(false)
  {
    Pio.DisplayMask();
  }

  // ------------------------------------------------------------------ DMA chains

  /** A chain configured in `main`, with the PIO block whose horiz-data FIFO it writes. */
  datatype Configured = Configured(pio: nat, chain: Dma.Chain)

  /** The first frame's chain reads `global_32bit_max` without increment (:231-235). */
  function FirstChain(): (c: Dma.Chain)
    ensures Dma.Readable(c.primary) && Dma.Readable(c.padding)
  {
    Dma.PaddedChain(Dma.Fixed(GlobalMax))
  }

  /** The final frame's chain reads `global_32bit_zero` without increment (:393-397). */
  function FinalChain(): (c: Dma.Chain)
    ensures Dma.Readable(c.primary) && Dma.Readable(c.padding)
  {
    Dma.PaddedChain(Dma.Fixed(0))
  }

  /** The three chains of `main`, each chained to 240 / 4 words of `global_32bit_zero`, with the
      PIO block each one writes. */
  function BringUpChains(red: seq<Byte>): (cs: seq<Configured>)
    requires |red| == Dma.FrameBytes
  {
    [Configured(0, FirstChain()), Configured(1, Dma.FramebufferChain(red)), Configured(2, FinalChain())]
  }

  /** Every chain sends 19200 primary words and then 60 zeros, one outer horiz-data loop more
      than the 641 loops of 30 words take. */
  lemma BringUpLengths(red: seq<Byte>)
    requires |red| == Dma.FrameBytes
    ensures |Dma.Stream(FirstChain())| == |Dma.Stream(Dma.FramebufferChain(red))| == |Dma.Stream(FinalChain())|
      == Dma.FrameWords + 60 == Pio.LoopRuns(Pio.HorizRows) * Pio.WordsPerRow() + 30
    ensures forall k | Dma.FrameWords <= k < Dma.FrameWords + 60 ::
      Dma.Stream(FirstChain())[k] == 0 && Dma.Stream(Dma.FramebufferChain(red))[k] == 0
  {
    Dma.PaddedStreamLength(FirstChain().primary.source);
    Dma.PaddedStreamLength(Dma.FramebufferChain(red).primary.source);
    Pio.WordsPerFrame();
  }

  /** The first frame is not black: every word it sends carries byte 0x3F followed by three zero
      bytes (the DMA reads `global_32bit_max`, the zero word being commented out). */
  lemma FirstFrameWords()
    ensures forall k | 0 <= k < Dma.FrameWords :: Dma.Stream(FirstChain())[k] == Le32(White, 0, 0, 0)
  {
    var c := FirstChain();
    forall k | 0 <= k < Dma.FrameWords
      ensures Dma.Stream(c)[k] == Le32(White, 0, 0, 0)
    {
      assert Dma.Stream(c)[k] == Dma.Emitted(c.primary)[k];
    }
  }

  /** After the fill, every byte the red frame sends is 0x3F. */
  lemma RedFrameWords(red: seq<Byte>)
    requires |red| == Dma.FrameBytes && forall k | 0 <= k < |red| :: red[k] == White
    ensures forall k | 0 <= k < Dma.FrameWords ::
      Dma.Stream(Dma.FramebufferChain(red))[k] == Le32(White, White, White, White)
  {
    var c := Dma.FramebufferChain(red);
    forall k | 0 <= k < Dma.FrameWords
      ensures Dma.Stream(c)[k] == Le32(White, White, White, White)
    {
      assert Dma.Stream(c)[k] == Dma.Emitted(c.primary)[k];
    }
  }

  /** The final frame sends nothing but zero words. */
  lemma FinalFrameWords()
    ensures forall k | 0 <= k < |Dma.Stream(FinalChain())| :: Dma.Stream(FinalChain())[k] == 0
  {
    var c := FinalChain();
    forall k | 0 <= k < |Dma.Stream(c)|
      ensures Dma.Stream(c)[k] == 0
    {
      if k < Dma.FrameWords {
        assert Dma.Stream(c)[k] == Dma.Emitted(c.primary)[k];
      } else {
        assert Dma.Stream(c)[k] == Dma.Emitted(c.padding)[k - Dma.FrameWords];
      }
    }
  }

  // ------------------------------------------------------------------ the board

  /** The program's globals and the hardware it drives: three PIO blocks (`PIO_INSTANCE(0..2)`),
      the two framebuffers, the bias tracker and pin levels, the chains configured so far and
      the event log. */
  class Board {
    const pio0: Pio.Block
    const pio1: Pio.Block
    const pio2: Pio.Block
    const red: array<Byte>
    const black: array<Byte>
    var tracker: nat
    var vaHigh: bool
    var vbVcomHigh: bool
    var chains: seq<Configured>
    var events: seq<Event>

    /** Three distinct blocks; the state machines of blocks 0 and 1 are distinct; two separate
        framebuffers of 320 * 240 bytes. */
    ghost predicate Valid()
    {
      && pio0.Valid() && pio1.Valid() && pio2.Valid()
      && pio0 != pio1 && pio1 != pio2 && pio0 != pio2
      && {pio0.vertical, pio0.gen, pio0.horizData} !! {pio1.vertical, pio1.gen, pio1.horizData}
      && red.Length == Dma.FrameBytes && black.Length == Dma.FrameBytes && red != black
    }

    /** The state at reset: zero-initialised globals, `va_vb_vcom_tracker = 1`, no program loaded. */
    constructor ()
      ensures Valid() && fresh(red) && fresh(black)
      ensures fresh(pio0.vertical) && fresh(pio0.gen) && fresh(pio0.horizData)
      ensures fresh(pio1.vertical) && fresh(pio1.gen) && fresh(pio1.horizData)
      ensures !pio0.programsLoaded && !pio1.programsLoaded && !pio2.programsLoaded
      ensures !pio0.irqForced && !pio1.irqForced && !pio2.irqForced
      ensures tracker == 1 && chains == [] && events == []
    {
      pio0 := new Pio.Block();
      pio1 := new Pio.Block();
      pio2 := new Pio.Block();
      red := new Byte[Dma.FrameBytes](_ => 0);
      black := new Byte[Dma.FrameBytes](_ => 0);
      tracker := 1;
      vaHigh, vbVcomHigh := false, false;
      chains, events := [], [];
    }

    /** `PIO_INSTANCE(i)`. */
    function Instance(i: nat): Pio.Block
      requires i < 3
    {
      if i == 0 then pio0 else if i == 1 then pio1 else pio2
    }

    /** `pwm_wrap_interrupt`: VA at the tracker's level, VB/VCOM at the opposite level, then the
        tracker flips. */
    method PwmWrapInterrupt()
      modifies this
      ensures vaHigh == (old(tracker) != 0) && vbVcomHigh == !vaHigh
      ensures tracker == Toggle(old(tracker))
      ensures chains == old(chains) && events == old(events)
    {
      vaHigh := tracker != 0;
      vbVcomHigh := !(tracker != 0);
      if tracker == 0 {
        tracker := 1;
      } else {
        tracker := 0;
      }
    }

    /** The wrap interrupts that fire while `main` sleeps with the PWM running; they are taken
        to happen together, after the PWM start. */
    method BiasRuns(wraps: nat)
      modifies this
      ensures tracker == TrackerAfter(old(tracker), wraps)
      ensures wraps == 0 ==> vaHigh == old(vaHigh) && vbVcomHigh == old(vbVcomHigh)
      ensures wraps > 0 ==> vbVcomHigh == !vaHigh
      ensures chains == old(chains) && events == old(events)
    {
      var k := 0;
      while k < wraps
        invariant k <= wraps
        invariant tracker == TrackerAfter(old(tracker), k)
        invariant k == 0 ==> vaHigh == old(vaHigh) && vbVcomHigh == old(vbVcomHigh)
        invariant k > 0 ==> vbVcomHigh == !vaHigh
        invariant chains == old(chains) && events == old(events)
      {
        PwmWrapInterrupt();
        k := k + 1;
      }
    }

    /** `init_sharpie_pios`: programs are added to PIO 0 and 1 only (`i < 2`). */
    method InitSharpiePios()
      requires Valid()
      modifies pio0, pio1
      ensures pio0.programsLoaded && pio1.programsLoaded
      ensures pio0.irqForced == old(pio0.irqForced) && pio1.irqForced == old(pio1.irqForced)
    {
      for i := 0 to 2
        invariant i >= 1 ==> pio0.programsLoaded
        invariant i >= 2 ==> pio1.programsLoaded
        invariant pio0.irqForced == old(pio0.irqForced) && pio1.irqForced == old(pio1.irqForced)
      {
        var pio := Instance(i);
        pio.AddPrograms();
      }
    }

    /** `restart_state_machines`: re-initialise and charge the three state machines of PIO 0 and 1
        only (`i < 2`). */
    method RestartStateMachines()
      requires Valid()
      modifies pio0.vertical, pio0.gen, pio0.horizData, pio1.vertical, pio1.gen, pio1.horizData
      ensures pio0.Charged() && pio1.Charged()
    {
      for i := 0 to 2
        invariant i >= 1 ==> pio0.Charged()
        invariant i >= 2 ==> pio1.Charged()
      {
        var pio := Instance(i);
        pio.ResetAndCharge();
      }
    }

    /** Configure the first chain (:225-248), restart the clocks of all three blocks (:251-253),
        raise 5 V (:264), trigger the first frame on PIO 0 (:275) and start the PWM (:308). */
    method PowerUp()
      requires Valid()
      modifies this, pio0
      ensures chains == old(chains) + [Configured(0, FirstChain())]
      ensures events == old(events) + PowerSequence()[..6]
      ensures pio0.irqForced && pio0.programsLoaded == old(pio0.programsLoaded)
      ensures tracker == old(tracker) && vaHigh == old(vaHigh) && vbVcomHigh == old(vbVcomHigh)
    {
      chains := chains + [Configured(0, FirstChain())];
      events := events + [ClockRestart(0, 7), ClockRestart(1, 7), ClockRestart(2, 7), FiveVolt(true)];
      pio0.ForceIrq0();
      events := events + [IrqForce(0), Pwm(true)];
    }

    /** Configure and trigger the red frame on PIO 1 (:331-359), then the final frame on PIO 2
        (:387-416). */
    method SendFrames()
      requires Valid()
      modifies this, pio1, pio2
      ensures chains == old(chains) + [Configured(1, Dma.FramebufferChain(red[..])), Configured(2, FinalChain())]
      ensures events == old(events) + PowerSequence()[6..8]
      ensures pio1.irqForced && pio1.programsLoaded == old(pio1.programsLoaded)
      ensures pio2.irqForced && pio2.programsLoaded == old(pio2.programsLoaded)
      ensures tracker == old(tracker) && vaHigh == old(vaHigh) && vbVcomHigh == old(vbVcomHigh)
    {
      chains := chains + [Configured(1, Dma.FramebufferChain(red[..]))];
      pio1.ForceIrq0();
      events := events + [IrqForce(1)];
      chains := chains + [Configured(2, FinalChain())];
      pio2.ForceIrq0();
      events := events + [IrqForce(2)];
    }

    /** Stop the PWM (:423), drive both bias pins low (:431-432) and drop 5 V (:438). */
    method PowerDown()
      modifies this
      ensures events == old(events) + PowerSequence()[8..]
      ensures chains == old(chains) && tracker == old(tracker) && !vaHigh && !vbVcomHigh
    {
      events := events + [Pwm(false)];
      vaHigh := false;
      events := events + [PinLow(VaPin)];
      vbVcomHigh := false;
      events := events + [PinLow(VbVcomPin), FiveVolt(false)];
    }

    /** The rest of `main` after charging, with the wrap interrupts between the PWM start and
        the red frame. */
    method ShowFrames(wraps: nat)
      requires Valid()
      modifies this, pio0, pio1, pio2
      ensures chains == old(chains) + BringUpChains(red[..])
      ensures events == old(events) + PowerSequence()
      ensures pio0.irqForced && pio1.irqForced && pio2.irqForced
      ensures pio0.programsLoaded == old(pio0.programsLoaded) && pio1.programsLoaded == old(pio1.programsLoaded)
      ensures pio2.programsLoaded == old(pio2.programsLoaded)
      ensures tracker == TrackerAfter(old(tracker), wraps) && !vaHigh && !vbVcomHigh
    {
      ghost var es := PowerSequence();
      assert es == es[..6] + es[6..8] + es[8..];
      PowerUp();
      BiasRuns(wraps);
      SendFrames();
      PowerDown();
    }

    /** `main`, with `wraps` PWM wrap interrupts while the bias signals run. PIO 2 is triggered
        for the final frame although no program was ever added to it and it was never charged. */
    method Run(wraps: nat)
      requires Valid()
      modifies this, red, black, pio0, pio1, pio2
      modifies pio0.vertical, pio0.gen, pio0.horizData, pio1.vertical, pio1.gen, pio1.horizData
      ensures forall k | 0 <= k < red.Length :: red[k] == White
      ensures forall k | 0 <= k < black.Length :: black[k] == 0
      ensures pio0.programsLoaded && pio1.programsLoaded && pio0.Charged() && pio1.Charged()
      ensures pio2.programsLoaded == old(pio2.programsLoaded)
      ensures pio0.irqForced && pio1.irqForced && pio2.irqForced
      ensures chains == old(chains) + BringUpChains(red[..])
      ensures events == old(events) + PowerSequence()
      ensures tracker == TrackerAfter(old(tracker), wraps) && !vaHigh && !vbVcomHigh
    {
      Memset(red, White);
      Memset(black, 0);
      InitSharpiePios();
      RestartStateMachines();
      ShowFrames(wraps);
    }
  }
}
