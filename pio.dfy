/** The part of an RP2040/RP2350 PIO block that the display firmware touches from the CPU:
    the TX FIFO and the OSR, ISR, X and Y registers of a state machine, written through
    `pio_sm_put` and instructions forced with `pio_sm_exec`. The instruction effects follow
    section 3.4 of the RP2040 datasheet (PULL, OUT and MOV); the state machines' own programs
    are not part of this model, and are assumed stalled (waiting on IRQ 0) while they are charged. */
module Pio {
  import opened Common

  /** Depth of a TX FIFO that is not joined with the RX FIFO. */
  const FifoDepth: nat := 4

  datatype MovSource = FromOsr | FromIsr

  datatype OutDest = ToIsr | ToY

  class StateMachine {
    var txFifo: seq<U32>
    var osr: U32
    var isr: U32
    var x: U32
    var y: U32

    /** A state machine after reset: empty FIFO, all registers zero. */
    constructor ()
      ensures txFifo == [] && osr == 0 && isr == 0 && x == 0 && y == 0
    {
      txFifo := [];
      osr := 0;
      isr := 0;
      x := 0;
      y := 0;
    }

    /** The effect the `sharpie_*_pio_init` helpers are taken to have (they call `pio_sm_init`,
        which clears the FIFOs and restarts the machine, clearing the ISR). */
    method Init()
      modifies this
      ensures txFifo == [] && isr == 0
      ensures osr == old(osr) && x == old(x) && y == old(y)
    {
      txFifo := [];
      isr := 0;
    }

    /** `pio_sm_put`: a write to a full FIFO is dropped. */
    method Put(v: U32)
      modifies this
      ensures |old(txFifo)| < FifoDepth ==> txFifo == old(txFifo) + [v]
      ensures |old(txFifo)| >= FifoDepth ==> txFifo == old(txFifo)
      ensures osr == old(osr) && isr == old(isr) && x == old(x) && y == old(y)
    {
      if |txFifo| < FifoDepth {
        txFifo := txFifo + [v];
      }
    }

    /** `pull noblock` (`pio_encode_pull(false, false)`): OSR takes the oldest FIFO word, or a
        copy of X when the FIFO is empty. */
    method Pull()
      modifies this
      ensures old(txFifo) != [] ==> osr == old(txFifo)[0] && txFifo == old(txFifo)[1..]
      ensures old(txFifo) == [] ==> osr == old(x) && txFifo == []
      ensures isr == old(isr) && x == old(x) && y == old(y)
    {
      if txFifo != [] {
        osr := txFifo[0];
        txFifo := txFifo[1..];
      } else {
        osr := x;
      }
    }

    /** `out dest, 32`: all 32 bits leave the OSR, which is left holding the shifted-in zeros. */
    method Out32(dest: OutDest)
      modifies this
      ensures dest == ToIsr ==> isr == old(osr) && y == old(y)
      ensures dest == ToY ==> y == old(osr) && isr == old(isr)
      ensures osr == 0 && txFifo == old(txFifo) && x == old(x)
    {
      match dest {
        case ToIsr => isr := osr;
        case ToY => y := osr;
      }
      osr := 0;
    }

    /** `mov x, src`: the source register is copied, not consumed. */
    method MovX(src: MovSource)
      modifies this
      ensures x == (if src == FromOsr then old(osr) else old(isr))
      ensures txFifo == old(txFifo) && osr == old(osr) && isr == old(isr) && y == old(y)
    {
      x := if src == FromOsr then osr else isr;
    }
  }

  /** Loop count charged into the vertical state machine's FIFO. */
  const VerticalCharge: U32 := 321
  /** X of the GEN state machine: one less than the number of GEN pulses. */
  const GenCharge: U32 := 639
  /** X (and its ISR backup) of the horiz-data state machine. */
  const HorizCharge: U32 := 59
  /** Y of the horiz-data state machine: one less than its outer loop count. */
  const HorizRows: U32 := 640

  /** `pio_sm_put(pio, vertical_sm, 321)`: the word stays in the FIFO until the (not modelled)
      program pulls it after IRQ 0. */
  method ChargeVertical(sm: StateMachine)
    requires sm.txFifo == []
    modifies sm
    ensures sm.txFifo == [VerticalCharge]
    ensures sm.osr == old(sm.osr) && sm.isr == old(sm.isr) && sm.x == old(sm.x) && sm.y == old(sm.y)
  {
    sm.Put(VerticalCharge);
  }

  /** `put 639; pull; mov x, osr`. */
  method ChargeGen(sm: StateMachine)
    requires sm.txFifo == []
    modifies sm
    ensures sm.x == GenCharge && sm.osr == GenCharge && sm.txFifo == []
    ensures sm.isr == old(sm.isr) && sm.y == old(sm.y)
  {
    sm.Put(GenCharge);
    sm.Pull();
    sm.MovX(FromOsr);
  }

  /** `put 59; pull; out isr, 32; mov x, isr; put 640; pull; out y, 32`. */
  method ChargeHorizData(sm: StateMachine)
    requires sm.txFifo == []
    modifies sm
    ensures sm.x == HorizCharge && sm.isr == HorizCharge
    ensures sm.y == HorizRows && sm.osr == 0 && sm.txFifo == []
  {
    sm.Put(HorizCharge);
    sm.Pull();
    sm.Out32(ToIsr);
    sm.MovX(FromIsr);
    sm.Put(HorizRows);
    sm.Pull();
    sm.Out32(ToY);
  }

  /** One PIO block with the three display state machines (vertical = SM 0, GEN = SM 1,
      horiz-data = SM 2). */
  class Block {
    const vertical: StateMachine
    const gen: StateMachine
    const horizData: StateMachine
    /** Whether the three programs have been added with `pio_add_program`. */
    var programsLoaded: bool
    /** Whether IRQ 0 has been forced, which starts the vertical state machine. */
    var irqForced: bool

    ghost predicate Valid()
    {
      vertical != gen && gen != horizData && vertical != horizData
    }

    /** What the three charge sequences leave behind. */
    ghost predicate Charged()
      reads vertical, gen, horizData
    {
      && vertical.txFifo == [VerticalCharge]
      && gen.x == GenCharge && gen.txFifo == []
      && horizData.x == HorizCharge && horizData.isr == HorizCharge
      && horizData.y == HorizRows && horizData.osr == 0 && horizData.txFifo == []
    }

    constructor ()
      ensures Valid() && !programsLoaded && !irqForced
      ensures fresh(vertical) && fresh(gen) && fresh(horizData)
    {
      vertical := new StateMachine();
      gen := new StateMachine();
      horizData := new StateMachine();
      programsLoaded := false;
      irqForced := false;
    }

    /** The three `pio_add_program` calls; their unsigned `offset < 0` checks cannot fail. */
    method AddPrograms()
      modifies this
      ensures programsLoaded && irqForced == old(irqForced)
    {
      programsLoaded := true;
    }

    /** Re-initialise the three state machines and charge them, in the order of the client's
        `reset_full_frame_pio` and of the body of sharpie-sw's `restart_state_machines`. */
    method ResetAndCharge()
      requires Valid()
      modifies vertical, gen, horizData
      ensures Charged()
    {
      vertical.Init();
      gen.Init();
      horizData.Init();
      ChargeVertical(vertical);
      ChargeGen(gen);
      ChargeHorizData(horizData);
    }

    /** `pio->irq_force = 0b1`. */
    method ForceIrq0()
      modifies this
      ensures irqForced && programsLoaded == old(programsLoaded)
    {
      irqForced := true;
    }
  }

  /** Whether a `pio_clkdiv_restart_sm_mask` mask names state machine sm: bit sm is SM sm. */
  predicate MaskSelects(mask: bv4, sm: nat)
    requires sm < 4
  {
    mask & ((1 as bv4) << sm) != 0
  }

  /** The mask `0b111` restarts exactly state machines 0, 1 and 2: vertical, GEN and horiz-data. */
  lemma DisplayMask()
    ensures forall sm | 0 <= sm < 4 :: MaskSelects(7, sm) <==> sm < 3
  {
  }

  /** Number of times a loop body closed by `jmp x--` runs when X starts at x: the jump is
      taken while X is non-zero before the decrement. */
  function LoopRuns(x: nat): nat
  {
    if x == 0 then 1 else 1 + LoopRuns(x - 1)
  }

  /** "The number you put in its FIFO is the number of times the loop will run, minus 1." */
  lemma {:induction false} LoopRunsCharge(x: nat)
    ensures LoopRuns(x) == x + 1
  {
    if x > 0 {
      LoopRunsCharge(x - 1);
    }
  }

  /** Half-lines a loop of two half-lines per run plus four closing half-lines produces. */
  function HalfLines(charge: nat): nat
  {
    2 * LoopRuns(charge) + 4
  }

  /** The loop-count arithmetic of the charge comments: 321 gives 648 vertical half-lines,
      639 gives 640 GEN pulses, 59 gives 124 horiz-data half-lines and 640 gives 641 rows. */
  lemma ChargeArithmetic()
    ensures HalfLines(VerticalCharge) == 648
    ensures LoopRuns(GenCharge) == 640
    ensures HalfLines(HorizCharge) == 124
    ensures LoopRuns(HorizRows) == 641
  {
    LoopRunsCharge(VerticalCharge);
    LoopRunsCharge(GenCharge);
    LoopRunsCharge(HorizCharge);
    LoopRunsCharge(HorizRows);
  }

  /** 32-bit words one outer horiz-data loop takes from the FIFO: two bytes per inner run. */
  function WordsPerRow(): nat
  {
    2 * LoopRuns(HorizCharge) / 4
  }

  /** The horiz-data program consumes 30 words per outer loop and 641 * 30 words in all. */
  lemma WordsPerFrame()
    ensures WordsPerRow() == 30
    ensures LoopRuns(HorizRows) * WordsPerRow() == 19230
  {
    LoopRunsCharge(HorizCharge);
    LoopRunsCharge(HorizRows);
  }
}
