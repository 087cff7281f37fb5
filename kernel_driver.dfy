/*
 * The Psychtoolbox kernel-level GPU driver for OS X: an IOKit service that
 * attaches to a Radeon or GeForce PCI device, maps its MMIO register block
 * and serves register reads and writes, beam-position queries, a display
 * head resync and a G80 dither switch to user space through one dispatch
 * entry point.
 *
 * The register block is byte memory (see RegisterBlock). Registers the
 * hardware changes by itself while the driver polls them (the beam
 * position, the G80 display-command handshake) are read from sample
 * sequences; when the samples run out before the poll ends, the call is
 * reported as not returning, which is what the driver's unbounded
 * busy-wait does on hardware that never gets there.
 */
module KernelDriver {

  import opened RegisterBlock
  import opened BeamPosition
  import opened PciAttach

  datatype Option<T> = None | Some(value: T)

  /* CRTC registers of the R500 display engine, as Psychtoolbox defines them for its user-space beam-position code. */
  const RADEON_D1CRTC_STATUS_POSITION: u32 := 0x60a0
  const RADEON_D2CRTC_OFFSET: u32 := 0x0800
  const RADEON_D2CRTC_STATUS_POSITION: u32 := 0x68a0
  const AVIVO_D1CRTC_V_BLANK_START_END: u32 := 0x6024
  const AVIVO_D1CRTC_V_TOTAL: u32 := 0x6020
  const AVIVO_D2CRTC_V_BLANK_START_END: u32 := 0x6024 + 0x0800
  const AVIVO_D2CRTC_V_TOTAL: u32 := 0x6020 + 0x0800

  /* Register offsets and bits from the driver's register header, which is not part of this model: their values are left open. */
  const RADEON_DC_CRTC_MASTER_ENABLE: u32
  const RADEON_R500_GEN_INT_STATUS: u32
  const RADEON_R500_DISP_INTERRUPT_STATUS: u32
  const RADEON_R500_D1MODE_VBLANK_STATUS: u32
  const RADEON_R500_D2MODE_VBLANK_STATUS: u32
  /* Interrupt-status bits of the R500 display engine, from the same header. */
  const RADEON_R500_DISPLAY_INT_STATUS: bv32
  const RADEON_R500_D1_VBLANK_INTERRUPT: bv32
  const RADEON_R500_D2_VBLANK_INTERRUPT: bv32
  const RADEON_R500_VBLANK_ACK: bv32

  /* Command codes of the user-client interface, from a header that is not part of this model. */
  const kPsychKDFastSyncAllHeads: u32
  const kPsychKDDumpMiscInfo: u32
  const kPsychKDGetBeamposition: u32
  const kPsychKDGetStateSnapshot: u32
  const kPsychKDReadRegister: u32
  const KPsychKDWriteRegister: u32
  const kPsychKDSetDitherMode: u32
  const kPsychKDMaxCommands: u32

  /** sizeof(PsychKDCommandStruct). */
  const PSYCH_KD_COMMAND_STRUCT_SIZE: nat

  /** G80 display-engine command FIFO registers. */
  const G80_DISP_DATA: u32 := 0x0061_0304
  const G80_DISP_CONTROL: u32 := 0x0061_0300
  const G80_DISP_SUPERVISOR: u32 := 0x0061_0024
  const G80_DISP_SUPERVISOR_ACK: u32 := 0x0061_0030
  const G80_DISP_BUSY: bv32 := 0x8000_0000

  /** The value fInterruptCookie holds while the handler may touch the driver's members. */
  const INTERRUPT_COOKIE: bv32 := 0xdead_beef

  /** Two registers share no byte. */
  predicate Apart(a: u32, b: u32)
  {
    a + 4 <= b || b + 4 <= a
  }

  /** The master-enable register shares no byte with the CRTC timing registers the resync reads. */
  predicate MasterApartFromTiming()
  {
    Apart(RADEON_DC_CRTC_MASTER_ENABLE, AVIVO_D1CRTC_V_BLANK_START_END) &&
    Apart(RADEON_DC_CRTC_MASTER_ENABLE, AVIVO_D1CRTC_V_TOTAL) &&
    Apart(RADEON_DC_CRTC_MASTER_ENABLE, AVIVO_D2CRTC_V_BLANK_START_END) &&
    Apart(RADEON_DC_CRTC_MASTER_ENABLE, AVIVO_D2CRTC_V_TOTAL)
  }

  /** The three registers the interrupt handler writes share no byte. */
  predicate InterruptRegistersApart()
  {
    Apart(RADEON_R500_D1MODE_VBLANK_STATUS, RADEON_R500_D2MODE_VBLANK_STATUS) &&
    Apart(RADEON_R500_D1MODE_VBLANK_STATUS, RADEON_R500_GEN_INT_STATUS) &&
    Apart(RADEON_R500_D2MODE_VBLANK_STATUS, RADEON_R500_GEN_INT_STATUS)
  }

  /* Per-head register selection: head 0 is CRTC 1, any other id is CRTC 2. */

  function PositionRegister(headId: bv32): u32
  {
    if headId == 0 then RADEON_D1CRTC_STATUS_POSITION else RADEON_D2CRTC_STATUS_POSITION
  }

  function VBlankRegister(headId: bv32): u32
  {
    if headId == 0 then AVIVO_D1CRTC_V_BLANK_START_END else AVIVO_D2CRTC_V_BLANK_START_END
  }

  function VTotalRegister(headId: bv32): u32
  {
    if headId == 0 then AVIVO_D1CRTC_V_TOTAL else AVIVO_D2CRTC_V_TOTAL
  }

  /**
   * A read of a register the hardware updates by itself: the value the
   * hardware presents, or 0 when ReadRegister refuses the offset.
   */
  function Sampled(mapped: bool, size: u32, offset: u32, sample: bv32): (v: bv32)
    ensures Accessible(mapped, size, offset) ==> v == sample
    ensures !Accessible(mapped, size, offset) ==> v == 0
  {
    if Accessible(mapped, size, offset) then sample else 0
  }

  /** GetBeamPosition of head `headId` when its position register reads `pos`. */
  function BeamOf(mapped: bool, mem: seq<bv8>, size: u32, headId: bv32, pos: bv32): (r: int)
    requires WellFormed(mapped, mem, size)
    ensures 0 <= r < TWO31
  {
    BeamFrom(pos, Peek(mapped, mem, size, VBlankRegister(headId)), Peek(mapped, mem, size, VTotalRegister(headId)))
  }

  /** The beam positions a poll loop on head `headId` observes, one per sample. */
  function SampledBeams(mapped: bool, mem: seq<bv8>, size: u32, headId: bv32, samples: seq<bv32>): (bs: seq<int>)
    requires WellFormed(mapped, mem, size)
    ensures |bs| == |samples|
    decreases |samples|
  {
    if samples == [] then []
    else SampledBeams(mapped, mem, size, headId, samples[..|samples| - 1])
         + [BeamOf(mapped, mem, size, headId, Sampled(mapped, size, PositionRegister(headId), samples[|samples| - 1]))]
  }

  /** The k-th observed beam position comes from the k-th sample. */
  lemma {:induction false} SampledBeamAt(mapped: bool, mem: seq<bv8>, size: u32, headId: bv32, samples: seq<bv32>, k: nat)
    requires WellFormed(mapped, mem, size)
    requires k < |samples|
    ensures SampledBeams(mapped, mem, size, headId, samples)[k]
         == BeamOf(mapped, mem, size, headId, Sampled(mapped, size, PositionRegister(headId), samples[k]))
    decreases |samples|
  {
    if k < |samples| - 1 {
      SampledBeamAt(mapped, mem, size, headId, samples[..|samples| - 1], k);
    }
  }

  /** The register block after the given writes to the master-enable register: only the last one counts. */
  function MasterWritten(mapped: bool, mem: seq<bv8>, size: u32, ws: seq<bv32>): (r: seq<bv8>)
    requires WellFormed(mapped, mem, size)
    ensures |r| == |mem|
  {
    if ws == [] then mem else Poke(mapped, mem, size, RADEON_DC_CRTC_MASTER_ENABLE, ws[|ws| - 1])
  }

  /** A further write to the master-enable register replaces the earlier ones and reads back, if accessible. */
  lemma MasterWriteStep(mapped: bool, mem: seq<bv8>, size: u32, ws: seq<bv32>, w: bv32)
    requires WellFormed(mapped, mem, size)
    ensures Poke(mapped, MasterWritten(mapped, mem, size, ws), size, RADEON_DC_CRTC_MASTER_ENABLE, w)
         == MasterWritten(mapped, mem, size, ws + [w])
    ensures Peek(mapped, MasterWritten(mapped, mem, size, ws + [w]), size, RADEON_DC_CRTC_MASTER_ENABLE)
         == if Accessible(mapped, size, RADEON_DC_CRTC_MASTER_ENABLE) then w else 0
  {
    if ws != [] {
      PokeOverwrite(mapped, mem, size, RADEON_DC_CRTC_MASTER_ENABLE, ws[|ws| - 1], w);
    }
    PokeThenPeek(mapped, mem, size, RADEON_DC_CRTC_MASTER_ENABLE, w);
  }

  /** Writing back the word first read from the master-enable register restores the block. */
  lemma MasterRestore(mapped: bool, mem: seq<bv8>, size: u32, ws: seq<bv32>)
    requires WellFormed(mapped, mem, size)
    ensures Poke(mapped, MasterWritten(mapped, mem, size, ws), size, RADEON_DC_CRTC_MASTER_ENABLE,
                 Peek(mapped, mem, size, RADEON_DC_CRTC_MASTER_ENABLE)) == mem
  {
    if ws != [] {
      PokeOverwrite(mapped, mem, size, RADEON_DC_CRTC_MASTER_ENABLE, ws[|ws| - 1], Peek(mapped, mem, size, RADEON_DC_CRTC_MASTER_ENABLE));
    }
    PokeSame(mapped, mem, size, RADEON_DC_CRTC_MASTER_ENABLE);
  }

  /** The samples the hardware presents to the loops of one dispatched command. */
  datatype HardwareSamples = HardwareSamples(
    positions0: seq<bv32>,   // head 0 position register during the resync's wait
    positions1: seq<bv32>,   // head 1 position register during the resync's wait
    restart0: bv32,          // head 0 position register after the restart
    restart1: bv32,          // head 1 position register after the restart
    dispPolls: seq<DispPoll>) // G80 command handshake

  /** One pass of the G80 handshake loop: the control word, then the supervisor word. */
  datatype DispPoll = DispPoll(control: bv32, supervisor: bv32)

  /** The resync's beam-offset result: head 1 minus head 0, sampled after the restart. */
  function RestartOffset(mapped: bool, mem: seq<bv8>, size: u32, hw: HardwareSamples): (d: int)
    requires WellFormed(mapped, mem, size)
    ensures -TWO31 < d < TWO31
  {
    BeamOf(mapped, mem, size, 1, Sampled(mapped, size, RADEON_D2CRTC_STATUS_POSITION, hw.restart1))
    - BeamOf(mapped, mem, size, 0, Sampled(mapped, size, RADEON_D1CRTC_STATUS_POSITION, hw.restart0))
  }

  /** Head i lets the resync go on: it is disabled in `orig`, or its wait completes. */
  ghost predicate HeadStops(mapped: bool, mem: seq<bv8>, size: u32, orig: bv32, i: nat, hw: HardwareSamples)
    requires WellFormed(mapped, mem, size) && i < 2
  {
    orig & HeadBit(i) != 0 ==>
      WaitCompletes(SampledBeams(mapped, mem, size, if i == 0 then 0 else 1, if i == 0 then hw.positions0 else hw.positions1))
  }

  /** The resync returns iff the wait of every head enabled in the original master word completes. */
  ghost predicate ResyncCompletes(mapped: bool, mem: seq<bv8>, size: u32, hw: HardwareSamples)
    requires WellFormed(mapped, mem, size)
  {
    var orig := Peek(mapped, mem, size, RADEON_DC_CRTC_MASTER_ENABLE);
    HeadStops(mapped, mem, size, orig, 0, hw) && HeadStops(mapped, mem, size, orig, 1, hw)
  }

  /** A write to the master-enable register does not change what a wait loop observes. */
  lemma {:induction false} MasterWriteKeepsBeams(mapped: bool, mem: seq<bv8>, size: u32, v: bv32, headId: bv32, samples: seq<bv32>)
    requires WellFormed(mapped, mem, size)
    requires MasterApartFromTiming()
    ensures SampledBeams(mapped, Poke(mapped, mem, size, RADEON_DC_CRTC_MASTER_ENABLE, v), size, headId, samples)
         == SampledBeams(mapped, mem, size, headId, samples)
    decreases |samples|
  {
    if samples != [] {
      MasterWriteKeepsBeams(mapped, mem, size, v, headId, samples[..|samples| - 1]);
      PokeFrame(mapped, mem, size, RADEON_DC_CRTC_MASTER_ENABLE, v, VBlankRegister(headId));
      PokeFrame(mapped, mem, size, RADEON_DC_CRTC_MASTER_ENABLE, v, VTotalRegister(headId));
    }
  }

  /* ---- The G80 display-command handshake ---- */

  /** The FIFO is still busy with the command: bit 31 of the control register reads set. */
  predicate DispBusy(mapped: bool, size: u32, p: DispPoll)
  {
    Sampled(mapped, size, G80_DISP_CONTROL, p.control) & G80_DISP_BUSY != 0
  }

  /** Bits 4..6 of the supervisor register: the pending supervisor stages. */
  function PendingStages(mapped: bool, size: u32, p: DispPoll): (v: nat)
    ensures v < 8
  {
    ((Sampled(mapped, size, G80_DISP_SUPERVISOR, p.supervisor) >> 4) & 7) as int
  }

  /**
   * The lowest-set-bit loop of G80DispCommand: the 1-based position of the
   * lowest set bit of `v`, 0 when no bit is set.
   */
  method LowestStage(v0: nat) returns (super: nat)
    ensures super == SuperStage(v0)
  {
    super := 0;
    var v := v0;
    if v > 0 {
      while true
        invariant v > 0 && SuperStage(v0) == super + SuperStage(v)
        decreases v
      {
        super := super + 1;
        if v % 2 == 1 {
          break;
        }
        v := v / 2;
      }
    }
  }

  /** The word written to the supervisor register to acknowledge stage `s`. */
  function AckWord(s: nat): (w: bv32)
    requires s < 8
  {
    (8 as bv32) << s
  }

  /**
   * The acknowledge word is the lowest pending stage bit, at its own
   * position in the supervisor register (bits 4..6): `v & -v` shifted up
   * by four.
   */
  lemma AckWordIsLowestPendingBit(v: nat)
    requires 0 < v < 8
    ensures AckWord(SuperStage(v)) == ((v as bv32) & (0 - v as bv32)) << 4
  {
    if v == 1 {
    } else if v == 2 {
    } else if v == 3 {
    } else if v == 4 {
    } else if v == 5 {
    } else if v == 6 {
    } else {
    }
  }

  /** The register block after one busy pass of the handshake loop. */
  function Acknowledge(mapped: bool, mem: seq<bv8>, size: u32, p: DispPoll): (r: seq<bv8>)
    requires WellFormed(mapped, mem, size)
    ensures |r| == |mem|
  {
    var s := SuperStage(PendingStages(mapped, size, p));
    if s != 0 then
      Poke(mapped, Poke(mapped, mem, size, G80_DISP_SUPERVISOR, AckWord(s)), size, G80_DISP_SUPERVISOR_ACK, G80_DISP_BUSY)
    else mem
  }

  /** The register block after busy passes for each of `polls`, in order. */
  function Handshake(mapped: bool, mem: seq<bv8>, size: u32, polls: seq<DispPoll>): (r: seq<bv8>)
    requires WellFormed(mapped, mem, size)
    ensures |r| == |mem|
    decreases |polls|
  {
    if polls == [] then mem
    else Acknowledge(mapped, Handshake(mapped, mem, size, polls[..|polls| - 1]), size, polls[|polls| - 1])
  }

  /** One more busy pass extends the handshake by one acknowledgement. */
  lemma HandshakeStep(mapped: bool, mem: seq<bv8>, size: u32, polls: seq<DispPoll>, k: nat)
    requires WellFormed(mapped, mem, size) && k < |polls|
    ensures WellFormed(mapped, Handshake(mapped, mem, size, polls[..k]), size)
    ensures Handshake(mapped, mem, size, polls[..k + 1]) ==
              Acknowledge(mapped, Handshake(mapped, mem, size, polls[..k]), size, polls[k])
  {
    assert polls[..k + 1][..k] == polls[..k] && polls[..k + 1][k] == polls[k];
  }

  /** The register block after G80DispCommand has posted data and command word. */
  function DispCommandStart(mapped: bool, mem: seq<bv8>, size: u32, addr: bv32, data: bv32): (r: seq<bv8>)
    requires WellFormed(mapped, mem, size)
    ensures |r| == |mem|
  {
    Poke(mapped, Poke(mapped, mem, size, G80_DISP_DATA, data), size, G80_DISP_CONTROL, addr | 0x8001_0001)
  }

  /** The register block after a display command whose handshake loop ended at the n-th poll. */
  function DispCommandDone(mapped: bool, mem: seq<bv8>, size: u32, addr: bv32, data: bv32, polls: seq<DispPoll>, n: nat): (r: seq<bv8>)
    requires WellFormed(mapped, mem, size)
    requires 0 < n <= |polls|
    ensures |r| == |mem|
  {
    Handshake(mapped, DispCommandStart(mapped, mem, size, addr, data), size, polls[..n - 1])
  }

  /** The handshake loop ends at the n-th poll: the first whose control word is no longer busy. */
  predicate DispCommandEndsAt(mapped: bool, size: u32, polls: seq<DispPoll>, n: nat)
  {
    0 < n <= |polls| && !DispBusy(mapped, size, polls[n - 1]) &&
    forall j :: 0 <= j < n - 1 ==> DispBusy(mapped, size, polls[j])
  }

  /**
   * How many polls the handshake loop takes: the position of the first
   * poll that is no longer busy, or None when every poll reads busy and
   * the loop does not end.
   */
  function PollsUntilIdle(mapped: bool, size: u32, polls: seq<DispPoll>): (r: Option<nat>)
    ensures r.Some? ==> DispCommandEndsAt(mapped, size, polls, r.value)
    ensures r.None? ==> forall j :: 0 <= j < |polls| ==> DispBusy(mapped, size, polls[j])
    ensures forall n: nat :: DispCommandEndsAt(mapped, size, polls, n) ==> r == Some(n)
    decreases |polls|
  {
    if polls == [] then None
    else if !DispBusy(mapped, size, polls[0]) then Some(1)
    else
      var rest := PollsUntilIdle(mapped, size, polls[1..]);
      assert forall j :: 1 <= j < |polls| ==> polls[j] == polls[1..][j - 1];
      if rest.None? then None else Some(rest.value + 1)
  }

  /**
   * Each pass of the handshake writes only the supervisor and its
   * acknowledge register: every register apart from both keeps its value.
   */
  lemma {:induction false} HandshakeKeepsOtherRegisters(mapped: bool, mem: seq<bv8>, size: u32, polls: seq<DispPoll>, other: u32)
    requires WellFormed(mapped, mem, size)
    requires Apart(other, G80_DISP_SUPERVISOR) && Apart(other, G80_DISP_SUPERVISOR_ACK)
    ensures Peek(mapped, Handshake(mapped, mem, size, polls), size, other) == Peek(mapped, mem, size, other)
    decreases |polls|
  {
    if polls != [] {
      var prev := Handshake(mapped, mem, size, polls[..|polls| - 1]);
      HandshakeKeepsOtherRegisters(mapped, mem, size, polls[..|polls| - 1], other);
      var s := SuperStage(PendingStages(mapped, size, polls[|polls| - 1]));
      if s != 0 {
        var m1 := Poke(mapped, prev, size, G80_DISP_SUPERVISOR, AckWord(s));
        PokeFrame(mapped, prev, size, G80_DISP_SUPERVISOR, AckWord(s), other);
        PokeFrame(mapped, m1, size, G80_DISP_SUPERVISOR_ACK, G80_DISP_BUSY, other);
      }
    }
  }

  /** A busy pass with a pending stage leaves the acknowledge word and the busy bit in the two registers. */
  lemma AcknowledgeWritesLowestStage(mapped: bool, mem: seq<bv8>, size: u32, p: DispPoll)
    requires WellFormed(mapped, mem, size)
    requires Accessible(mapped, size, G80_DISP_SUPERVISOR) && Accessible(mapped, size, G80_DISP_SUPERVISOR_ACK)
    requires PendingStages(mapped, size, p) != 0
    ensures Peek(mapped, Acknowledge(mapped, mem, size, p), size, G80_DISP_SUPERVISOR)
         == ((PendingStages(mapped, size, p) as bv32) & (0 - PendingStages(mapped, size, p) as bv32)) << 4
    ensures Peek(mapped, Acknowledge(mapped, mem, size, p), size, G80_DISP_SUPERVISOR_ACK) == G80_DISP_BUSY
  {
    var v := PendingStages(mapped, size, p);
    var m1 := Poke(mapped, mem, size, G80_DISP_SUPERVISOR, AckWord(SuperStage(v)));
    PokeFrame(mapped, m1, size, G80_DISP_SUPERVISOR_ACK, G80_DISP_BUSY, G80_DISP_SUPERVISOR);
    AckWordIsLowestPendingBit(v);
  }

  /** With no register block mapped, every control read is 0: a command returns after its first poll and writes nothing. */
  lemma UnmappedCommandReturnsAtOnce(mem: seq<bv8>, size: u32, addr: bv32, data: bv32, polls: seq<DispPoll>)
    requires |polls| > 0
    ensures DispCommandEndsAt(false, size, polls, 1)
    ensures Handshake(false, DispCommandStart(false, mem, size, addr, data), size, polls[..0]) == mem
  {
    assert polls[..0] == [];
  }

  /** The offset of the dither-control method of head `headId`, in UInt32 arithmetic. */
  function DitherMethod(headId: bv32): bv32
  {
    0x8A0 + 0x400 * headId
  }

  /** When the first handshake ends at poll n1 and the second n2 polls later, SetDitherMode leaves both commands done. */
  lemma DitherModeCompletes(mapped: bool, mem: seq<bv8>, size: u32, headId: bv32, ditherOn: bv32, polls: seq<DispPoll>, n1: nat, n2: nat)
    requires WellFormed(mapped, mem, size)
    requires DispCommandEndsAt(mapped, size, polls, n1) && DispCommandEndsAt(mapped, size, polls[n1..], n2)
    ensures DitherModeDone(mapped, mem, size, headId, ditherOn, polls) ==
              Some(DispCommandDone(mapped, DispCommandDone(mapped, mem, size, DitherMethod(headId), DitherWord(ditherOn), polls, n1),
                                   size, 0x80, 0, polls[n1..], n2))
  {
    assert PollsUntilIdle(mapped, size, polls) == Some(n1);
    assert PollsUntilIdle(mapped, size, polls[n1..]) == Some(n2);
  }

  /** When the first handshake ends at poll n1 and every later poll reads busy, SetDitherMode does not return. */
  lemma DitherModeStalls(mapped: bool, mem: seq<bv8>, size: u32, headId: bv32, ditherOn: bv32, polls: seq<DispPoll>, n1: nat)
    requires WellFormed(mapped, mem, size)
    requires DispCommandEndsAt(mapped, size, polls, n1)
    requires forall j :: 0 <= j < |polls[n1..]| ==> DispBusy(mapped, size, polls[n1..][j])
    ensures DitherModeDone(mapped, mem, size, headId, ditherOn, polls).None?
    ensures forall j :: n1 <= j < |polls| ==> DispBusy(mapped, size, polls[j])
  {
    assert PollsUntilIdle(mapped, size, polls) == Some(n1);
    assert forall j :: n1 <= j < |polls| ==> polls[j] == polls[n1..][j - n1];
  }

  /** The data word of the dither method: 0x11 switches dithering on, 0 off. */
  function DitherWord(ditherOn: bv32): bv32
  {
    if ditherOn != 0 then 0x11 else 0
  }

  /**
   * The register block after SetDitherMode: the dither method of the head,
   * then the update method 0x80, each as a display command whose handshake
   * ends. None when either handshake never ends.
   */
  function DitherModeDone(mapped: bool, mem: seq<bv8>, size: u32, headId: bv32, ditherOn: bv32, polls: seq<DispPoll>): (r: Option<seq<bv8>>)
    requires WellFormed(mapped, mem, size)
    ensures r.Some? ==> |r.value| == |mem|
  {
    match PollsUntilIdle(mapped, size, polls)
    case None => None
    case Some(n1) =>
      match PollsUntilIdle(mapped, size, polls[n1..])
      case None => None
      case Some(n2) =>
        Some(DispCommandDone(mapped, DispCommandDone(mapped, mem, size, DitherMethod(headId), DitherWord(ditherOn), polls, n1),
                             size, 0x80, 0, polls[n1..], n2))
  }

  /* ---- The interrupt handler's effect ---- */

  /** The interrupt-status word `word` has the status bit `bit` set. */
  predicate BitSet(word: bv32, bit: bv32)
  {
    word & bit != 0
  }

  /** The handler saw a VBLANK interrupt of head `head`. */
  predicate HeadInterrupted(irq: bv32, disp: bv32, head: nat)
    requires head < 2
  {
    BitSet(irq, RADEON_R500_DISPLAY_INT_STATUS) &&
    if head == 0 then BitSet(disp, RADEON_R500_D1_VBLANK_INTERRUPT) else BitSet(disp, RADEON_R500_D2_VBLANK_INTERRUPT)
  }

  /** The register block after the handler acknowledged VBLANK of each interrupted head and then the interrupt status. */
  function IrqAcknowledged(mapped: bool, mem: seq<bv8>, size: u32, irq: bv32, disp: bv32): (r: seq<bv8>)
    requires WellFormed(mapped, mem, size)
    ensures |r| == |mem|
  {
    var m := VblankAcked(mapped, mem, size, irq, disp);
    if irq != 0 then Poke(mapped, m, size, RADEON_R500_GEN_INT_STATUS, irq) else m
  }

  /** Per-head VBLANK counters after the handler: one more for each interrupted head (UInt32, wrapping). */
  function VblCounted(counts: seq<bv32>, irq: bv32, disp: bv32): (r: seq<bv32>)
    requires |counts| == 2
    ensures |r| == 2
  {
    CountHead(CountHead(counts, HeadInterrupted(irq, disp, 0), 0), HeadInterrupted(irq, disp, 1), 1)
  }

  /** The counters after handleVBLIRQ(head), if `interrupted`. */
  function CountHead(counts: seq<bv32>, interrupted: bool, head: nat): (r: seq<bv32>)
    requires head < |counts|
    ensures |r| == |counts|
  {
    if interrupted then counts[head := counts[head] + 1] else counts
  }

  /** The block after the VBLANK acknowledgements alone, before GEN_INT_STATUS is written back. */
  function VblankAcked(mapped: bool, mem: seq<bv8>, size: u32, irq: bv32, disp: bv32): (r: seq<bv8>)
    requires WellFormed(mapped, mem, size)
    ensures |r| == |mem|
  {
    var m1 := AckHead(mapped, mem, size, HeadInterrupted(irq, disp, 0), RADEON_R500_D1MODE_VBLANK_STATUS);
    AckHead(mapped, m1, size, HeadInterrupted(irq, disp, 1), RADEON_R500_D2MODE_VBLANK_STATUS)
  }

  /** The block after the handler acknowledged VBLANK in `status`, if `interrupted`. */
  function AckHead(mapped: bool, mem: seq<bv8>, size: u32, interrupted: bool, status: u32): (r: seq<bv8>)
    requires WellFormed(mapped, mem, size)
    ensures |r| == |mem|
  {
    if interrupted then Poke(mapped, mem, size, status, RADEON_R500_VBLANK_ACK) else mem
  }

  /** An interrupted head 0 finds VBLANK_ACK in its status register after the handler. */
  lemma HandlerAcksHead0(mapped: bool, mem: seq<bv8>, size: u32, irq: bv32, disp: bv32)
    requires WellFormed(mapped, mem, size)
    requires InterruptRegistersApart()
    requires HeadInterrupted(irq, disp, 0)
    ensures Peek(mapped, IrqAcknowledged(mapped, mem, size, irq, disp), size, RADEON_R500_D1MODE_VBLANK_STATUS)
         == if Accessible(mapped, size, RADEON_R500_D1MODE_VBLANK_STATUS) then RADEON_R500_VBLANK_ACK else 0
  {
    var m1 := Poke(mapped, mem, size, RADEON_R500_D1MODE_VBLANK_STATUS, RADEON_R500_VBLANK_ACK);
    PokeThenPeek(mapped, mem, size, RADEON_R500_D1MODE_VBLANK_STATUS, RADEON_R500_VBLANK_ACK);
    var m2 := VblankAcked(mapped, mem, size, irq, disp);
    if HeadInterrupted(irq, disp, 1) {
      PokeFrame(mapped, m1, size, RADEON_R500_D2MODE_VBLANK_STATUS, RADEON_R500_VBLANK_ACK, RADEON_R500_D1MODE_VBLANK_STATUS);
    }
    if irq != 0 {
      PokeFrame(mapped, m2, size, RADEON_R500_GEN_INT_STATUS, irq, RADEON_R500_D1MODE_VBLANK_STATUS);
    }
  }

  /** An interrupted head 1 finds VBLANK_ACK in its status register after the handler. */
  lemma HandlerAcksHead1(mapped: bool, mem: seq<bv8>, size: u32, irq: bv32, disp: bv32)
    requires WellFormed(mapped, mem, size)
    requires InterruptRegistersApart()
    requires HeadInterrupted(irq, disp, 1)
    ensures Peek(mapped, IrqAcknowledged(mapped, mem, size, irq, disp), size, RADEON_R500_D2MODE_VBLANK_STATUS)
         == if Accessible(mapped, size, RADEON_R500_D2MODE_VBLANK_STATUS) then RADEON_R500_VBLANK_ACK else 0
  {
    var m1 := if HeadInterrupted(irq, disp, 0) then Poke(mapped, mem, size, RADEON_R500_D1MODE_VBLANK_STATUS, RADEON_R500_VBLANK_ACK) else mem;
    var m2 := VblankAcked(mapped, mem, size, irq, disp);
    assert m2 == Poke(mapped, m1, size, RADEON_R500_D2MODE_VBLANK_STATUS, RADEON_R500_VBLANK_ACK);
    PokeThenPeek(mapped, m1, size, RADEON_R500_D2MODE_VBLANK_STATUS, RADEON_R500_VBLANK_ACK);
    if irq != 0 {
      PokeFrame(mapped, m2, size, RADEON_R500_GEN_INT_STATUS, irq, RADEON_R500_D2MODE_VBLANK_STATUS);
    }
  }

  /** A nonzero interrupt status is written back to GEN_INT_STATUS; with no interrupt pending nothing is written at all. */
  lemma HandlerWritesBackStatus(mapped: bool, mem: seq<bv8>, size: u32, irq: bv32, disp: bv32)
    requires WellFormed(mapped, mem, size)
    ensures irq != 0 ==>
              Peek(mapped, IrqAcknowledged(mapped, mem, size, irq, disp), size, RADEON_R500_GEN_INT_STATUS)
              == if Accessible(mapped, size, RADEON_R500_GEN_INT_STATUS) then irq else 0
    ensures irq == 0 ==> IrqAcknowledged(mapped, mem, size, irq, disp) == mem
  {
    if irq != 0 {
      PokeThenPeek(mapped, VblankAcked(mapped, mem, size, irq, disp), size, RADEON_R500_GEN_INT_STATUS, irq);
    }
  }

  /* ---- Command dispatch ---- */

  datatype IOReturn = kIOReturnSuccess | kIOReturnBadArgument

  /** The command block exchanged with user space: a command code and the argument words. */
  datatype PsychKDCommandStruct = PsychKDCommandStruct(command: u32, inOutArgs: seq<u32>)

  /** What a dispatch call hands back: its return code, the output block and the output size, if it set one. */
  datatype Reply = Reply(ret: IOReturn, outStruct: PsychKDCommandStruct, outStructSize: Option<nat>)

  /** The switch of the dispatcher: which case an in-range command code selects. */
  datatype KDCase = FastSyncCase | DumpMiscInfoCase | GetBeampositionCase | GetStateSnapshotCase
                  | ReadRegisterCase | WriteRegisterCase | SetDitherModeCase | DefaultCase

  function SwitchCase(cmd: u32): (c: KDCase)
    ensures c == DefaultCase <==>
      cmd != kPsychKDFastSyncAllHeads && cmd != kPsychKDDumpMiscInfo && cmd != kPsychKDGetBeamposition &&
      cmd != kPsychKDGetStateSnapshot && cmd != kPsychKDReadRegister && cmd != KPsychKDWriteRegister &&
      cmd != kPsychKDSetDitherMode
  {
    if cmd == kPsychKDFastSyncAllHeads then FastSyncCase
    else if cmd == kPsychKDDumpMiscInfo then DumpMiscInfoCase
    else if cmd == kPsychKDGetBeamposition then GetBeampositionCase
    else if cmd == kPsychKDGetStateSnapshot then GetStateSnapshotCase
    else if cmd == kPsychKDReadRegister then ReadRegisterCase
    else if cmd == KPsychKDWriteRegister then WriteRegisterCase
    else if cmd == kPsychKDSetDitherMode then SetDitherModeCase
    else DefaultCase
  }

  /** `(UInt32) x` for an SInt32 value. */
  function ToWord(x: int): (r: u32)
    requires -TWO31 <= x < TWO31
    ensures x >= 0 ==> r == x
    ensures x < 0 ==> r == x + TWO32
  {
    x % TWO32
  }

  /**
   * The probe loop of start(): count the memory ranges in the size class
   * of the register aperture and remember the last one.
   */
  method ScanMemoryRanges(ranges: seq<MemRange>) returns (candidate: MemRange, candidate_count: nat)
    ensures candidate_count == |Candidates(ranges)|
    ensures candidate_count > 0 ==> candidate == Candidates(ranges)[candidate_count - 1]
  {
    candidate := MemRange(0, 0);
    candidate_count := 0;
    var index := 0;
    while index < |ranges|
      invariant 0 <= index <= |ranges|
      invariant candidate_count == |Candidates(ranges[..index])|
      invariant candidate_count > 0 ==> candidate == Candidates(ranges[..index])[candidate_count - 1]
    {
      var mem := ranges[index];
      if mem.length >= 0x1000 && mem.length <= 0x10000 {
        candidate := mem;
        candidate_count := candidate_count + 1;
      }
      assert ranges[..index + 1] == ranges[..index] + [mem];
      CandidatesAppend(ranges[..index], mem);
      index := index + 1;
    }
    assert ranges[..index] == ranges;
  }

  class PsychtoolboxKernelDriver {
    var fDeviceType: DeviceType
    var fPCIDevice: Option<PciDevice>
    /** An IOMemoryMap of the register block is held. */
    var fRadeonMap: bool
    /** The bytes of the mapped register block; empty when nothing is mapped. */
    var fRadeonRegs: seq<bv8>
    var fRadeonSize: u32
    /** An interrupt event source is installed. */
    var fInterruptSrc: bool
    var fInterruptCookie: bv32
    var fInterruptCounter: bv32
    const fVBLCounter: array<bv32>
    /* The function-local statics of fastPathInterruptHandler. */
    var myCounter: bv32
    var irqStatus: bv32
    var displayirqStatus: bv32

    /** Allocation of the driver object and static initialisation of the handler's locals. */
    constructor ()
      ensures fVBLCounter.Length == 2 && fresh(fVBLCounter)
      ensures myCounter == 0 && irqStatus == INTERRUPT_COOKIE && displayirqStatus == 0
    {
      fVBLCounter := new bv32[2];
      myCounter := 0;
      irqStatus := INTERRUPT_COOKIE;
      displayirqStatus := 0;
    }

    predicate Valid()
      reads this`fRadeonMap, this`fRadeonSize, this`fRadeonRegs
    {
      fVBLCounter.Length == 2 &&
      (fRadeonMap ==> fRadeonSize <= |fRadeonRegs|) &&
      (!fRadeonMap ==> fRadeonRegs == [])
    }

    predicate Mapped()
      reads this`fRadeonMap
    {
      fRadeonMap
    }

    /** The bytes of the register block. */
    function Mem(): (m: seq<bv8>)
      reads this`fRadeonMap, this`fRadeonSize, this`fRadeonRegs
      requires Valid()
      ensures WellFormed(Mapped(), m, fRadeonSize)
    {
      fRadeonRegs
    }

    /** Detached: no device, no mapping, no interrupt source. */
    predicate Inert()
      reads this`fPCIDevice, this`fRadeonRegs, this`fRadeonMap, this`fRadeonSize, this`fInterruptSrc
    {
      fPCIDevice.None? && fRadeonRegs == [] && !fRadeonMap && fRadeonSize == 0 && !fInterruptSrc
    }

    method Init(superInitOk: bool) returns (ok: bool)
      requires fVBLCounter.Length == 2
      modifies this`fDeviceType, this`fPCIDevice, this`fRadeonMap, this`fRadeonRegs, this`fRadeonSize,
               this`fInterruptSrc, this`fInterruptCookie, this`fInterruptCounter, fVBLCounter
      ensures ok == superInitOk
      ensures !ok ==> unchanged(this) && unchanged(fVBLCounter)
      ensures ok ==> Valid() && Inert() && fDeviceType == kPsychUnknown
      ensures ok ==> fInterruptCookie == INTERRUPT_COOKIE && fInterruptCounter == 0 && fVBLCounter[..] == [0, 0]
    {
      if !superInitOk {
        return false;
      }
      fDeviceType := kPsychUnknown;
      fPCIDevice := None;
      fRadeonMap := false;
      fRadeonRegs := [];
      fRadeonSize := 0;
      fInterruptSrc := false;
      fInterruptCookie := INTERRUPT_COOKIE;
      fInterruptCounter := 0;
      fVBLCounter[0] := 0;
      fVBLCounter[1] := 0;
      ok := true;
    }

    /** On a detached driver every register reads 0. */
    lemma InertReadsZero(offset: u32)
      requires Valid() && Inert()
      ensures Peek(Mapped(), Mem(), fRadeonSize, offset) == 0
    {
    }

    /**
     * start(): select the BAR by vendor, probe a Radeon's memory ranges,
     * map the register block. A failed probe or mapping detaches the
     * device but still reports the parent's success.
     */
    method Start(provider: PciDevice, superStartOk: bool) returns (success: bool)
      requires Valid()
      modifies this`fPCIDevice, this`fDeviceType, this`fRadeonMap, this`fRadeonRegs, this`fRadeonSize
      ensures Valid()
      ensures success == superStartOk
      ensures !superStartOk ==> unchanged(this)
      ensures superStartOk ==> fDeviceType == TypeFor(provider.vendorId)
      ensures superStartOk ==> fPCIDevice == if Attaches(provider) then Some(provider) else None
      ensures superStartOk && Attaches(provider) ==>
                fRadeonMap && fRadeonRegs == provider.mappable[BarFor(provider.vendorId)] &&
                fRadeonSize == |fRadeonRegs| % TWO32
      ensures superStartOk && !Attaches(provider) ==>
                fRadeonRegs == old(fRadeonRegs) && fRadeonMap == old(fRadeonMap) && fRadeonSize == old(fRadeonSize)
    {
      if !superStartOk {
        return false;
      }
      success := true;
      fPCIDevice := Some(provider);
      var pciBARReg: int;
      if provider.vendorId == PCI_VENDOR_ID_NVIDIA {
        pciBARReg := kIOPCIConfigBaseAddress0;
        fDeviceType := kPsychGeForce;
      } else {
        pciBARReg := kIOPCIConfigBaseAddress2;
        fDeviceType := kPsychRadeon;
      }

      if fDeviceType == kPsychRadeon {
        var candidate, candidate_count := ScanMemoryRanges(provider.memoryRanges);
        if candidate_count != 1 || pciBARReg !in provider.barRanges
           || candidate.physAddr != provider.barRanges[pciBARReg].physAddr
           || candidate.length != provider.barRanges[pciBARReg].length
        {
          fPCIDevice := None;
          return;
        }
      }

      if pciBARReg in provider.mappable {
        var content := provider.mappable[pciBARReg];
        fRadeonRegs := content;
        fRadeonMap := true;
        fRadeonSize := |content| % TWO32;
      } else {
        fPCIDevice := None;
        return;
      }
      // The interrupt handler installation that follows is switched off in the driver.
    }

    /**
     * stop(): an attached driver uninstalls its interrupt source, if any,
     * and drops device and mapping; a detached one does nothing.
     */
    method Stop()
      requires Valid()
      modifies this`fPCIDevice, this`fRadeonMap, this`fRadeonRegs, this`fRadeonSize,
               this`fInterruptSrc, this`fInterruptCookie, this`fInterruptCounter
      ensures Valid()
      ensures old(fPCIDevice).None? ==> unchanged(this)
      ensures old(fPCIDevice).Some? ==> Inert()
      ensures old(fPCIDevice).Some? && old(fInterruptSrc) ==> fInterruptCookie == INTERRUPT_COOKIE && fInterruptCounter == 0
      ensures !old(fInterruptSrc) ==> fInterruptCookie == old(fInterruptCookie) && fInterruptCounter == old(fInterruptCounter)
      ensures old(fPCIDevice).Some? ==> forall o: u32 :: Peek(Mapped(), Mem(), fRadeonSize, o) == 0
    {
      if fPCIDevice.Some? {
        if fInterruptSrc {
          // The handler's (NULL, NULL) call made here only logs.
          fInterruptSrc := false;
          fInterruptCookie := INTERRUPT_COOKIE;
          fInterruptCounter := 0;
        }
        fPCIDevice := None;
        fRadeonMap := false;
        fRadeonRegs := [];
        fRadeonSize := 0;
      }
    }

    /** ReadRegister: the little-endian word at `offset`, or 0 when unmapped or out of range. */
    method ReadRegister(offset: u32) returns (v: bv32)
      requires Valid()
      ensures v == Peek(Mapped(), Mem(), fRadeonSize, offset)
    {
      if !fRadeonMap || !Accessible(true, fRadeonSize, offset) {
        return 0;
      }
      v := Word(fRadeonRegs[offset], fRadeonRegs[offset + 1], fRadeonRegs[offset + 2], fRadeonRegs[offset + 3]);
    }

    /** WriteRegister: store `value` little-endian at `offset`; nothing happens when unmapped or out of range. */
    method WriteRegister(offset: u32, value: bv32)
      requires Valid()
      modifies this`fRadeonRegs
      ensures Valid()
      ensures Mem() == Poke(Mapped(), old(Mem()), fRadeonSize, offset, value)
    {
      if fRadeonMap && Accessible(true, fRadeonSize, offset) {
        fRadeonRegs := WriteWord(fRadeonRegs, offset, value);
      }
    }

    /** A poll of a register the hardware updates: `sample`, or 0 when the read is refused. */
    method SampleRegister(offset: u32, sample: bv32) returns (v: bv32)
      requires Valid()
      ensures v == Sampled(Mapped(), fRadeonSize, offset, sample)
    {
      v := if fRadeonMap && Accessible(true, fRadeonSize, offset) then sample else 0;
    }

    /** The beam position of head `headId` when its position register reads `pos`. */
    method BeamAt(headId: bv32, pos: bv32) returns (r: int)
      requires Valid()
      ensures r == BeamOf(Mapped(), Mem(), fRadeonSize, headId, pos)
    {
      var vblank := ReadRegister(VBlankRegister(headId));
      var vtotal := ReadRegister(VTotalRegister(headId));
      r := BeamFrom(pos, vblank, vtotal);
    }

    /**
     * GetBeamPosition: the scanline of head `headId` counted from the end
     * of vertical blank, never negative; 0 on an unmapped driver.
     */
    method GetBeamPosition(headId: bv32) returns (r: u32)
      requires Valid()
      ensures r == BeamOf(Mapped(), Mem(), fRadeonSize, headId, Peek(Mapped(), Mem(), fRadeonSize, PositionRegister(headId)))
      ensures r < TWO31
      ensures !Mapped() ==> r == 0
    {
      var pos := ReadRegister(PositionRegister(headId));
      r := BeamAt(headId, pos);
    }

    /**
     * GetBeamPosition of head `headId` while its position register presents
     * the k-th of `samples`: the k-th beam position the wait observes.
     */
    method PollBeam(headId: bv32, samples: seq<bv32>, k: nat, ghost beams: seq<int>) returns (b: int)
      requires Valid()
      requires k < |samples|
      requires beams == SampledBeams(Mapped(), Mem(), fRadeonSize, headId, samples)
      ensures b == beams[k]
    {
      var pos := SampleRegister(PositionRegister(headId), samples[k]);
      b := BeamAt(headId, pos);
      SampledBeamAt(Mapped(), Mem(), fRadeonSize, headId, samples, k);
    }

    /**
     * The two wait loops of the resync for one head: until the beam is
     * past the midline, then until it has wrapped back to the top.
     */
    method WaitForRefreshStart(headId: bv32, samples: seq<bv32>) returns (n: Option<nat>)
      requires Valid()
      ensures n.Some? ==> WaitEndsAt(SampledBeams(Mapped(), Mem(), fRadeonSize, headId, samples), n.value)
      ensures n.None? ==> !WaitCompletes(SampledBeams(Mapped(), Mem(), fRadeonSize, headId, samples))
    {
      ghost var mapped, mem := Mapped(), Mem();
      ghost var beams := SampledBeams(mapped, mem, fRadeonSize, headId, samples);
      var k := 0;
      while true
        invariant Mapped() == mapped && Mem() == mem
        invariant 0 <= k <= |samples|
        invariant forall j :: 0 <= j < k ==> beams[j] <= MIDLINE
        decreases |samples| - k
      {
        if k == |samples| {
          WaitNeverRises(beams);
          return None;
        }
        var b := PollBeam(headId, samples, k, beams);
        k := k + 1;
        if b > MIDLINE {
          break;
        }
      }
      ghost var m := k - 1;
      while true
        invariant Mapped() == mapped && Mem() == mem
        invariant m < k <= |samples|
        invariant beams[m] > MIDLINE && forall j :: 0 <= j < m ==> beams[j] <= MIDLINE
        invariant forall j :: m < j < k ==> beams[j] > MIDLINE
        decreases |samples| - k
      {
        if k == |samples| {
          WaitNeverFalls(beams, m);
          return None;
        }
        var b := PollBeam(headId, samples, k, beams);
        k := k + 1;
        if b <= MIDLINE {
          assert WaitRisesFalls(beams, m, k);
          return Some(k);
        }
      }
    }

    /**
     * FastSynchronizeAllDisplayHeads: stop each running head at the start
     * of a refresh, restore the original master-enable word, and return
     * the beam offset of head 1 against head 0 after the restart. `writes`
     * are the words written to the master-enable register, in order.
     */
    method FastSynchronizeAllDisplayHeads(hw: HardwareSamples) returns (deltabeampos: Option<int>, ghost writes: seq<bv32>)
      requires Valid()
      modifies this`fRadeonRegs
      ensures Valid()
      ensures var orig := old(Peek(Mapped(), Mem(), fRadeonSize, RADEON_DC_CRTC_MASTER_ENABLE));
              deltabeampos.Some? ==> writes == ResyncWrites(orig) && Mem() == old(Mem())
      ensures var orig := old(Peek(Mapped(), Mem(), fRadeonSize, RADEON_DC_CRTC_MASTER_ENABLE));
              deltabeampos.None? ==> writes <= ClearWrites(orig, 2) && Mem() == MasterWritten(Mapped(), old(Mem()), fRadeonSize, writes)
      ensures deltabeampos.Some? ==> deltabeampos.value == RestartOffset(Mapped(), old(Mem()), fRadeonSize, hw)
      ensures MasterApartFromTiming() ==>
                (deltabeampos.Some? <==> ResyncCompletes(Mapped(), old(Mem()), fRadeonSize, hw))
    {
      ghost var mem0 := Mem();
      var orig := ReadRegister(RADEON_DC_CRTC_MASTER_ENABLE);
      var stopped;
      stopped, writes := StopAllHeads(orig, hw, mem0);
      if !stopped {
        return None, writes;
      }
      RestoreMaster(orig, mem0, writes);
      writes := writes + [orig];
      var delta := SampleRestartOffset(hw);
      deltabeampos := Some(delta);
    }

    /**
     * The loop of the resync over both heads: `stopped` is false as soon as
     * the wait of an enabled head does not end, and the master-enable
     * register then holds the last of the `writes` made so far.
     */
    method StopAllHeads(orig: bv32, hw: HardwareSamples, ghost mem0: seq<bv8>) returns (stopped: bool, ghost writes: seq<bv32>)
      requires Valid() && WellFormed(Mapped(), mem0, fRadeonSize) && Mem() == mem0
      requires orig == Peek(Mapped(), mem0, fRadeonSize, RADEON_DC_CRTC_MASTER_ENABLE)
      modifies this`fRadeonRegs
      ensures Valid()
      ensures Mem() == MasterWritten(Mapped(), mem0, fRadeonSize, writes)
      ensures writes <= ClearWrites(orig, 2)
      ensures stopped ==> writes == ClearWrites(orig, 2)
      ensures MasterApartFromTiming() ==> (stopped <==> ResyncCompletes(Mapped(), mem0, fRadeonSize, hw))
    {
      writes := [];
      for i := 0 to 2
        invariant Valid()
        invariant writes == ClearWrites(orig, i)
        invariant Mem() == MasterWritten(Mapped(), mem0, fRadeonSize, writes)
        invariant !Accessible(Mapped(), fRadeonSize, RADEON_DC_CRTC_MASTER_ENABLE) ==> orig == 0
        invariant Accessible(Mapped(), fRadeonSize, RADEON_DC_CRTC_MASTER_ENABLE) ==>
                    Peek(Mapped(), Mem(), fRadeonSize, RADEON_DC_CRTC_MASTER_ENABLE) == Remaining(orig, i)
        invariant MasterApartFromTiming() && i > 0 ==> HeadStops(Mapped(), mem0, fRadeonSize, orig, 0, hw)
        invariant MasterApartFromTiming() && i > 1 ==> HeadStops(Mapped(), mem0, fRadeonSize, orig, 1, hw)
      {
        ClearWritesStep(orig, i);
        stopped, writes := StopHead(i, orig, hw, mem0, writes);
        if !stopped {
          return;
        }
      }
      stopped := true;
    }

    /** Writing the original master word back undoes every clearing write. */
    method RestoreMaster(orig: bv32, ghost mem0: seq<bv8>, ghost writes: seq<bv32>)
      requires Valid()
      requires WellFormed(Mapped(), mem0, fRadeonSize)
      requires Mem() == MasterWritten(Mapped(), mem0, fRadeonSize, writes)
      requires orig == Peek(Mapped(), mem0, fRadeonSize, RADEON_DC_CRTC_MASTER_ENABLE)
      modifies this`fRadeonRegs
      ensures Valid()
      ensures Mem() == mem0
    {
      MasterRestore(Mapped(), mem0, fRadeonSize, writes);
      WriteRegister(RADEON_DC_CRTC_MASTER_ENABLE, orig);
    }

    /**
     * One pass of the resync loop, for head i: when the head is enabled in
     * the original master word `orig`, wait for the start of a refresh and
     * clear the head's bit in the current master word. `stopped` is false
     * when the wait does not end; the block is then as it was.
     */
    method StopHead(i: nat, orig: bv32, hw: HardwareSamples, ghost mem0: seq<bv8>, ghost writes: seq<bv32>)
      returns (stopped: bool, ghost writes': seq<bv32>)
      requires Valid() && i < 2
      requires WellFormed(Mapped(), mem0, fRadeonSize)
      requires writes == ClearWrites(orig, i)
      requires Mem() == MasterWritten(Mapped(), mem0, fRadeonSize, writes)
      requires Accessible(Mapped(), fRadeonSize, RADEON_DC_CRTC_MASTER_ENABLE) ==>
                 Peek(Mapped(), Mem(), fRadeonSize, RADEON_DC_CRTC_MASTER_ENABLE) == Remaining(orig, i)
      requires !Accessible(Mapped(), fRadeonSize, RADEON_DC_CRTC_MASTER_ENABLE) ==> orig == 0
      modifies this`fRadeonRegs
      ensures Valid()
      ensures stopped ==> writes' == ClearWrites(orig, i + 1) && Mem() == MasterWritten(Mapped(), mem0, fRadeonSize, writes')
      ensures stopped && Accessible(Mapped(), fRadeonSize, RADEON_DC_CRTC_MASTER_ENABLE) ==>
                Peek(Mapped(), Mem(), fRadeonSize, RADEON_DC_CRTC_MASTER_ENABLE) == Remaining(orig, i + 1)
      ensures !stopped ==> writes' == writes && Mem() == old(Mem())
      ensures MasterApartFromTiming() ==> (stopped <==> HeadStops(Mapped(), mem0, fRadeonSize, orig, i, hw))
    {
      ClearWritesStep(orig, i);
      if orig & HeadBit(i) == 0 {
        SkipHead(orig, i);
        return true, writes;
      }
      stopped := WaitHead(i, if i == 0 then hw.positions0 else hw.positions1, mem0, writes);
      if !stopped {
        return false, writes;
      }
      writes' := ClearHeadBit(i, orig, mem0, writes);
    }

    /** The wait of head i, as it observes the block before the resync wrote to the master-enable register. */
    method WaitHead(i: nat, samples: seq<bv32>, ghost mem0: seq<bv8>, ghost writes: seq<bv32>) returns (done: bool)
      requires Valid() && i < 2
      requires WellFormed(Mapped(), mem0, fRadeonSize)
      requires Mem() == MasterWritten(Mapped(), mem0, fRadeonSize, writes)
      ensures MasterApartFromTiming() ==>
                (done <==> WaitCompletes(SampledBeams(Mapped(), mem0, fRadeonSize, if i == 0 then 0 else 1, samples)))
    {
      var head: bv32 := if i == 0 then 0 else 1;
      if MasterApartFromTiming() && writes != [] {
        MasterWriteKeepsBeams(Mapped(), mem0, fRadeonSize, writes[|writes| - 1], head, samples);
      }
      var n := WaitForRefreshStart(head, samples);
      done := n.Some?;
    }

    /** Clearing head i's bit in the current master word, which the earlier heads left as Remaining(orig, i). */
    method ClearHeadBit(i: nat, orig: bv32, ghost mem0: seq<bv8>, ghost writes: seq<bv32>) returns (ghost writes': seq<bv32>)
      requires Valid() && i < 2
      requires WellFormed(Mapped(), mem0, fRadeonSize)
      requires Mem() == MasterWritten(Mapped(), mem0, fRadeonSize, writes)
      requires Accessible(Mapped(), fRadeonSize, RADEON_DC_CRTC_MASTER_ENABLE)
      requires Peek(Mapped(), Mem(), fRadeonSize, RADEON_DC_CRTC_MASTER_ENABLE) == Remaining(orig, i)
      modifies this`fRadeonRegs
      ensures Valid()
      ensures writes' == writes + [Remaining(orig, i + 1)]
      ensures Mem() == MasterWritten(Mapped(), mem0, fRadeonSize, writes')
      ensures Peek(Mapped(), Mem(), fRadeonSize, RADEON_DC_CRTC_MASTER_ENABLE) == Remaining(orig, i + 1)
    {
      var cur := ReadRegister(RADEON_DC_CRTC_MASTER_ENABLE);
      ClearNextHead(orig, i, cur);
      var next := cur & !HeadBit(i);
      MasterWriteStep(Mapped(), mem0, fRadeonSize, writes, next);
      WriteRegister(RADEON_DC_CRTC_MASTER_ENABLE, next);
      writes' := writes + [next];
    }

    /** The two beam positions read after the restart, and their difference. */
    method SampleRestartOffset(hw: HardwareSamples) returns (deltabeampos: int)
      requires Valid()
      ensures deltabeampos == RestartOffset(Mapped(), Mem(), fRadeonSize, hw)
    {
      var pos0 := SampleRegister(RADEON_D1CRTC_STATUS_POSITION, hw.restart0);
      var beampos0 := BeamAt(0, pos0);
      var pos1 := SampleRegister(RADEON_D2CRTC_STATUS_POSITION, hw.restart1);
      var beampos1 := BeamAt(1, pos1);
      deltabeampos := beampos1 - beampos0;
    }

    /**
     * G80DispCommand: post `data` and the command word for method `addr`,
     * then serve supervisor requests until the FIFO is no longer busy.
     */
    method G80DispCommand(addr: bv32, data: bv32, polls: seq<DispPoll>) returns (consumed: Option<nat>)
      requires Valid()
      modifies this`fRadeonRegs
      ensures Valid()
      ensures consumed.Some? ==>
                DispCommandEndsAt(Mapped(), fRadeonSize, polls, consumed.value) &&
                Mem() == DispCommandDone(Mapped(), old(Mem()), fRadeonSize, addr, data, polls, consumed.value)
      ensures consumed.None? ==> forall j :: 0 <= j < |polls| ==> DispBusy(Mapped(), fRadeonSize, polls[j])
      ensures consumed == PollsUntilIdle(Mapped(), fRadeonSize, polls)
    {
      WriteRegister(G80_DISP_DATA, data);
      WriteRegister(G80_DISP_CONTROL, addr | 0x8001_0001);
      consumed := ServeUntilIdle(polls);
    }

    /** The handshake loop of G80DispCommand: serve supervisor requests while the FIFO reads busy. */
    method ServeUntilIdle(polls: seq<DispPoll>) returns (consumed: Option<nat>)
      requires Valid()
      modifies this`fRadeonRegs
      ensures Valid()
      ensures consumed.Some? ==>
                DispCommandEndsAt(Mapped(), fRadeonSize, polls, consumed.value) &&
                Mem() == Handshake(Mapped(), old(Mem()), fRadeonSize, polls[..consumed.value - 1])
      ensures consumed.None? ==> forall j :: 0 <= j < |polls| ==> DispBusy(Mapped(), fRadeonSize, polls[j])
    {
      ghost var start := Mem();
      var k := 0;
      while true
        invariant Valid()
        invariant 0 <= k <= |polls|
        invariant forall j :: 0 <= j < k ==> DispBusy(Mapped(), fRadeonSize, polls[j])
        invariant Mem() == Handshake(Mapped(), start, fRadeonSize, polls[..k])
        decreases |polls| - k
      {
        if k == |polls| {
          return None;
        }
        var control := SampleRegister(G80_DISP_CONTROL, polls[k].control);
        assert DispBusy(Mapped(), fRadeonSize, polls[k]) == (control & G80_DISP_BUSY != 0);
        if control & G80_DISP_BUSY == 0 {
          return Some(k + 1);
        }
        HandshakeStep(Mapped(), start, fRadeonSize, polls, k);
        ServeSupervisor(polls[k]);
        k := k + 1;
      }
    }

    /** One busy pass of the handshake: acknowledge the lowest pending supervisor stage, if any. */
    method ServeSupervisor(p: DispPoll)
      requires Valid()
      modifies this`fRadeonRegs
      ensures Valid()
      ensures Mem() == Acknowledge(Mapped(), old(Mem()), fRadeonSize, p)
    {
      var supervisor := SampleRegister(G80_DISP_SUPERVISOR, p.supervisor);
      var v := ((supervisor >> 4) & 7) as int;
      var super := LowestStage(v);
      // Stage 2 only logs that a pixel-clock change would be due.
      if super != 0 {
        WriteRegister(G80_DISP_SUPERVISOR, AckWord(super));
        WriteRegister(G80_DISP_SUPERVISOR_ACK, G80_DISP_BUSY);
      }
    }

    /**
     * SetDitherMode: the dither method of head `headId` with 0x11 (on) or
     * 0 (off), then the update method 0x80, each as a display command.
     * `split` is the number of polls the first command used.
     */
    method SetDitherMode(headId: bv32, ditherOn: bv32, polls: seq<DispPoll>) returns (consumed: Option<nat>, ghost split: nat)
      requires Valid()
      modifies this`fRadeonRegs
      ensures Valid()
      ensures consumed.Some? ==>
                split < consumed.value <= |polls| &&
                DispCommandEndsAt(Mapped(), fRadeonSize, polls, split) &&
                DispCommandEndsAt(Mapped(), fRadeonSize, polls[split..], consumed.value - split) &&
                Mem() == DispCommandDone(Mapped(),
                           DispCommandDone(Mapped(), old(Mem()), fRadeonSize, DitherMethod(headId), DitherWord(ditherOn), polls, split),
                           fRadeonSize, 0x80, 0, polls[split..], consumed.value - split)
      ensures consumed.Some? <==> DitherModeDone(Mapped(), old(Mem()), fRadeonSize, headId, ditherOn, polls).Some?
      ensures consumed.Some? ==> Mem() == DitherModeDone(Mapped(), old(Mem()), fRadeonSize, headId, ditherOn, polls).value
      ensures consumed.None? ==>
                (forall j :: 0 <= j < |polls| ==> DispBusy(Mapped(), fRadeonSize, polls[j])) ||
                (DispCommandEndsAt(Mapped(), fRadeonSize, polls, split) &&
                 forall j :: split <= j < |polls| ==> DispBusy(Mapped(), fRadeonSize, polls[j]))
    {
      ghost var mem0 := Mem();
      var first := G80DispCommand(DitherMethod(headId), DitherWord(ditherOn), polls);
      if first.None? {
        return None, 0;
      }
      var n1 := first.value;
      split := n1;
      var second := G80DispCommand(0x80, 0, polls[n1..]);
      if second.None? {
        DitherModeStalls(Mapped(), mem0, fRadeonSize, headId, ditherOn, polls, n1);
        return None, n1;
      }
      consumed := Some(n1 + second.value);
      DitherModeCompletes(Mapped(), mem0, fRadeonSize, headId, ditherOn, polls, n1, second.value);
    }

    /** handleVBLIRQ: count one VBLANK interrupt of head `headId`. */
    method HandleVBLIRQ(headId: u32)
      requires Valid()
      requires headId < 2
      modifies fVBLCounter
      ensures fVBLCounter[..] == old(fVBLCounter[..])[headId := old(fVBLCounter[headId]) + 1]
    {
      fVBLCounter[headId] := fVBLCounter[headId] + 1;
    }

    /**
     * fastPathInterruptHandler: a (NULL, NULL) call only reports; a real
     * interrupt is counted and, while the cookie is valid, acknowledged at
     * the hardware and counted per head. It never asks for the work-loop
     * handler.
     */
    method FastPathInterruptHandler(myselfIsNull: bool, mySourceIsNull: bool) returns (escalate: bool)
      requires Valid()
      modifies this`myCounter, this`irqStatus, this`displayirqStatus, this`fInterruptCounter, this`fRadeonRegs, fVBLCounter
      ensures Valid()
      ensures !escalate
      ensures myselfIsNull && mySourceIsNull ==>
                unchanged(this) && Mem() == old(Mem()) && fVBLCounter[..] == old(fVBLCounter[..])
      ensures !(myselfIsNull && mySourceIsNull) ==> myCounter == old(myCounter) + 1
      ensures !(myselfIsNull && mySourceIsNull) && fInterruptCookie != INTERRUPT_COOKIE ==>
                Mem() == old(Mem()) && fVBLCounter[..] == old(fVBLCounter[..]) &&
                fInterruptCounter == old(fInterruptCounter) &&
                irqStatus == old(irqStatus) && displayirqStatus == old(displayirqStatus)
      ensures !(myselfIsNull && mySourceIsNull) && fInterruptCookie == INTERRUPT_COOKIE ==>
                irqStatus == old(Peek(Mapped(), Mem(), fRadeonSize, RADEON_R500_GEN_INT_STATUS)) &&
                displayirqStatus == (if BitSet(irqStatus, RADEON_R500_DISPLAY_INT_STATUS)
                                     then old(Peek(Mapped(), Mem(), fRadeonSize, RADEON_R500_DISP_INTERRUPT_STATUS))
                                     else old(displayirqStatus)) &&
                Mem() == IrqAcknowledged(Mapped(), old(Mem()), fRadeonSize, irqStatus, displayirqStatus) &&
                fVBLCounter[..] == VblCounted(old(fVBLCounter[..]), irqStatus, displayirqStatus) &&
                fInterruptCounter == old(fInterruptCounter) + 1
    {
      if myselfIsNull && mySourceIsNull {
        // Only logs the counters and two registers.
        return false;
      }
      myCounter := myCounter + 1;
      if fInterruptCookie == INTERRUPT_COOKIE {
        ServiceInterrupt();
        fInterruptCounter := fInterruptCounter + 1;
      }
      escalate := false;
    }

    /** The handler's work while the cookie is valid: read, acknowledge and count the pending interrupts. */
    method ServiceInterrupt()
      requires Valid()
      modifies this`irqStatus, this`displayirqStatus, this`fRadeonRegs, fVBLCounter
      ensures Valid()
      ensures irqStatus == old(Peek(Mapped(), Mem(), fRadeonSize, RADEON_R500_GEN_INT_STATUS))
      ensures displayirqStatus == (if BitSet(irqStatus, RADEON_R500_DISPLAY_INT_STATUS)
                                   then old(Peek(Mapped(), Mem(), fRadeonSize, RADEON_R500_DISP_INTERRUPT_STATUS))
                                   else old(displayirqStatus))
      ensures Mem() == IrqAcknowledged(Mapped(), old(Mem()), fRadeonSize, irqStatus, displayirqStatus)
      ensures fVBLCounter[..] == VblCounted(old(fVBLCounter[..]), irqStatus, displayirqStatus)
    {
      irqStatus := ReadRegister(RADEON_R500_GEN_INT_STATUS);
      if BitSet(irqStatus, RADEON_R500_DISPLAY_INT_STATUS) {
        displayirqStatus := ReadRegister(RADEON_R500_DISP_INTERRUPT_STATUS);
        AcknowledgeVblank(irqStatus, displayirqStatus);
      }
      if irqStatus != 0 {
        WriteRegister(RADEON_R500_GEN_INT_STATUS, irqStatus);
      }
    }

    /** Acknowledge and count the VBLANK interrupt of each head whose bit is set in the display status `disp`. */
    method AcknowledgeVblank(irq: bv32, disp: bv32)
      requires Valid()
      requires BitSet(irq, RADEON_R500_DISPLAY_INT_STATUS)
      modifies this`fRadeonRegs, fVBLCounter
      ensures Valid()
      ensures Mem() == VblankAcked(Mapped(), old(Mem()), fRadeonSize, irq, disp)
      ensures fVBLCounter[..] == VblCounted(old(fVBLCounter[..]), irq, disp)
    {
      if BitSet(disp, RADEON_R500_D1_VBLANK_INTERRUPT) {
        AckVblank(RADEON_R500_D1MODE_VBLANK_STATUS, 0);
      }
      if BitSet(disp, RADEON_R500_D2_VBLANK_INTERRUPT) {
        AckVblank(RADEON_R500_D2MODE_VBLANK_STATUS, 1);
      }
    }

    /** Acknowledge VBLANK in the status register `status` of head `headId` and count it. */
    method AckVblank(status: u32, headId: u32)
      requires Valid()
      requires headId < 2
      modifies this`fRadeonRegs, fVBLCounter
      ensures Valid()
      ensures Mem() == AckHead(Mapped(), old(Mem()), fRadeonSize, true, status)
      ensures fVBLCounter[..] == CountHead(old(fVBLCounter[..]), true, headId)
    {
      WriteRegister(status, RADEON_R500_VBLANK_ACK);
      HandleVBLIRQ(headId);
    }

    /**
     * PsychKDDispatchCommand: reject an out-of-range command code before
     * touching anything; otherwise run the selected case and report
     * success with the output size set, whether or not the case matched.
     * None: the call does not return within the samples given.
     */
    method PsychKDDispatchCommand(inStruct: PsychKDCommandStruct, outStruct: PsychKDCommandStruct, hw: HardwareSamples)
      returns (reply: Option<Reply>)
      requires Valid()
      requires |inStruct.inOutArgs| >= 2 && |outStruct.inOutArgs| >= 1
      modifies this`fRadeonRegs
      ensures Valid()
      ensures inStruct.command >= kPsychKDMaxCommands ==>
                reply == Some(Reply(kIOReturnBadArgument, outStruct, None)) && Mem() == old(Mem())
      ensures inStruct.command < kPsychKDMaxCommands && reply.Some? ==>
                reply.value.ret == kIOReturnSuccess && reply.value.outStructSize == Some(PSYCH_KD_COMMAND_STRUCT_SIZE)
      ensures reply.None? ==> SwitchCase(inStruct.command) in {FastSyncCase, SetDitherModeCase}
      ensures inStruct.command < kPsychKDMaxCommands ==>
                CaseServed(SwitchCase(inStruct.command), Mapped(), old(Mem()), Mem(), fRadeonSize, inStruct.inOutArgs, outStruct, hw, reply)
    {
      var cmd := inStruct.command;
      if cmd >= kPsychKDMaxCommands {
        return Some(Reply(kIOReturnBadArgument, outStruct, None));
      }
      var out := outStruct;
      var ret := kIOReturnSuccess;
      match SwitchCase(cmd) {
        case FastSyncCase =>
          var r := FastSyncCommand(outStruct, hw);
          if r.None? {
            return None;
          }
          out := r.value;
        case DumpMiscInfoCase =>
          // Only logs registers 0 .. 0x200.
        case GetBeampositionCase =>
          out := BeamCommand(inStruct.inOutArgs[0], outStruct);
        case GetStateSnapshotCase =>
          // Not implemented in the driver: leaves the output block as it is.
        case ReadRegisterCase =>
          out := ReadCommand(inStruct.inOutArgs[0], outStruct);
        case WriteRegisterCase =>
          WriteRegister(inStruct.inOutArgs[0], Bits(inStruct.inOutArgs[1]));
        case SetDitherModeCase =>
          var done := DitherCommand(inStruct.inOutArgs[0], inStruct.inOutArgs[1], hw.dispPolls);
          if !done {
            return None;
          }
        case DefaultCase =>
          // The driver sets ret to kIOReturnBadArgument here, but then returns kIOReturnSuccess anyway.
          ret := kIOReturnBadArgument;
      }
      reply := Some(Reply(kIOReturnSuccess, out, Some(PSYCH_KD_COMMAND_STRUCT_SIZE)));
    }

    /** The FastSyncAllHeads case: the restart offset as a UInt32 in inOutArgs[0]; None if the resync does not return. */
    method FastSyncCommand(outStruct: PsychKDCommandStruct, hw: HardwareSamples) returns (r: Option<PsychKDCommandStruct>)
      requires Valid()
      requires |outStruct.inOutArgs| >= 1
      modifies this`fRadeonRegs
      ensures Valid()
      ensures r.Some? ==>
                r.value == outStruct.(inOutArgs := outStruct.inOutArgs[0 := ToWord(RestartOffset(Mapped(), old(Mem()), fRadeonSize, hw))]) &&
                Mem() == old(Mem())
      ensures MasterApartFromTiming() ==> (r.Some? <==> ResyncCompletes(Mapped(), old(Mem()), fRadeonSize, hw))
    {
      var delta, _ := FastSynchronizeAllDisplayHeads(hw);
      if delta.None? {
        return None;
      }
      r := Some(outStruct.(inOutArgs := outStruct.inOutArgs[0 := ToWord(delta.value)]));
    }

    /** The GetBeamposition case: the beam position of head inOutArgs[0] in inOutArgs[0]. */
    method BeamCommand(arg: u32, outStruct: PsychKDCommandStruct) returns (out: PsychKDCommandStruct)
      requires Valid()
      requires |outStruct.inOutArgs| >= 1
      ensures out == outStruct.(inOutArgs := outStruct.inOutArgs[0 := BeamOf(Mapped(), Mem(), fRadeonSize, Bits(arg),
                                                                      Peek(Mapped(), Mem(), fRadeonSize, PositionRegister(Bits(arg))))])
    {
      var beampos := GetBeamPosition(Bits(arg));
      out := outStruct.(inOutArgs := outStruct.inOutArgs[0 := beampos]);
    }

    /** The ReadRegister case: the register at offset inOutArgs[0] in inOutArgs[0]. */
    method ReadCommand(arg: u32, outStruct: PsychKDCommandStruct) returns (out: PsychKDCommandStruct)
      requires Valid()
      requires |outStruct.inOutArgs| >= 1
      ensures out == outStruct.(inOutArgs := outStruct.inOutArgs[0 := Peek(Mapped(), Mem(), fRadeonSize, arg) as int])
    {
      var value := ReadRegister(arg);
      out := outStruct.(inOutArgs := outStruct.inOutArgs[0 := value as int]);
    }

    /** The SetDitherMode case: false if a display-command handshake does not end. */
    method DitherCommand(headId: u32, ditherOn: u32, polls: seq<DispPoll>) returns (done: bool)
      requires Valid()
      modifies this`fRadeonRegs
      ensures Valid()
      ensures done <==> DitherModeDone(Mapped(), old(Mem()), fRadeonSize, Bits(headId), Bits(ditherOn), polls).Some?
      ensures done ==> Mem() == DitherModeDone(Mapped(), old(Mem()), fRadeonSize, Bits(headId), Bits(ditherOn), polls).value
    {
      var consumed, _ := SetDitherMode(Bits(headId), Bits(ditherOn), polls);
      done := consumed.Some?;
    }
  }

  /**
   * What each case of the dispatcher leaves behind, from the register
   * block `mem0` before the call to `mem` after it: the output block it
   * replies with and the registers it changes.
   */
  ghost predicate CaseServed(c: KDCase, mapped: bool, mem0: seq<bv8>, mem: seq<bv8>, size: u32, args: seq<u32>,
                             outStruct: PsychKDCommandStruct, hw: HardwareSamples, reply: Option<Reply>)
    requires WellFormed(mapped, mem0, size)
    requires |args| >= 2 && |outStruct.inOutArgs| >= 1
  {
    match c
    case GetBeampositionCase =>
      reply.Some? && mem == mem0 &&
      reply.value.outStruct ==
        outStruct.(inOutArgs := outStruct.inOutArgs[0 := BeamOf(mapped, mem0, size, Bits(args[0]),
                                                        Peek(mapped, mem0, size, PositionRegister(Bits(args[0]))))])
    case ReadRegisterCase =>
      reply.Some? && mem == mem0 &&
      reply.value.outStruct == outStruct.(inOutArgs := outStruct.inOutArgs[0 := Peek(mapped, mem0, size, args[0]) as int])
    case WriteRegisterCase =>
      reply.Some? && reply.value.outStruct == outStruct && mem == Poke(mapped, mem0, size, args[0], Bits(args[1]))
    case FastSyncCase =>
      (MasterApartFromTiming() ==> (reply.Some? <==> ResyncCompletes(mapped, mem0, size, hw))) &&
      (reply.Some? ==>
        mem == mem0 &&
        reply.value.outStruct == outStruct.(inOutArgs := outStruct.inOutArgs[0 := ToWord(RestartOffset(mapped, mem0, size, hw))]))
    case SetDitherModeCase =>
      var done := DitherModeDone(mapped, mem0, size, Bits(args[0]), Bits(args[1]), hw.dispPolls);
      (reply.Some? <==> done.Some?) &&
      (reply.Some? ==> reply.value.outStruct == outStruct && mem == done.value)
    case _ =>
      reply.Some? && reply.value.outStruct == outStruct && mem == mem0
  }

  /**
   * A code in range that names no case falls to the default branch, where
   * the dispatcher always returns, passes the output block through and
   * leaves the registers alone; the dispatch contract adds that such a
   * reply is a success with the size set.
   */
  lemma UnknownCommandSucceeds(cmd: u32)
    requires cmd < kPsychKDMaxCommands
    requires cmd != kPsychKDFastSyncAllHeads && cmd != kPsychKDDumpMiscInfo && cmd != kPsychKDGetBeamposition
    requires cmd != kPsychKDGetStateSnapshot && cmd != kPsychKDReadRegister && cmd != KPsychKDWriteRegister
    requires cmd != kPsychKDSetDitherMode
    ensures SwitchCase(cmd) == DefaultCase
    ensures forall mapped: bool, mem0: seq<bv8>, mem: seq<bv8>, size: u32, args: seq<u32>,
                   outStruct: PsychKDCommandStruct, hw: HardwareSamples, reply: Option<Reply>
              | WellFormed(mapped, mem0, size) && |args| >= 2 && |outStruct.inOutArgs| >= 1 ::
              CaseServed(SwitchCase(cmd), mapped, mem0, mem, size, args, outStruct, hw, reply) <==>
              reply.Some? && reply.value.outStruct == outStruct && mem == mem0
  {
  }
}
