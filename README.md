# Psychtoolbox core: a Dafny model

This project models the parts of Psychtoolbox that are sequential integer
and table logic, and proves what their code promises.

- **The OS X kernel driver `PsychtoolboxKernelDriver`** (modules
  `RegisterBlock`, `BeamPosition`, `PciAttach`, `KernelDriver`). This is the
  class that maps a Radeon or GeForce register block and serves the
  user-space commands. The model covers:
  - bounds-checked little-endian 32-bit register reads and writes;
  - `start`/`stop`/`init`, including the choice of the memory range to map;
  - the beam-position formula;
  - the resynchronisation of the display heads through the CRTC
    master-enable word;
  - the G80 display-command handshake;
  - the VBLANK interrupt handler;
  - the command dispatcher.
- **The function registry of the MEX glue** (`Registry`). It has a bounded
  table of named subfunctions, register-once base, exit and module-name
  slots, and command lookup with help-suffix stripping.
- **The moglcore dispatcher** (`MoglCore`). It does an iteration-capped
  binary search over sorted command maps, and searches its three maps in a
  fixed order.
- **The Windows text glue** (`TextGlue`). Two parallel tables map
  text-drawing mode names to mode constants, and one function gives the
  default text settings.
- **The two video-capture slot banks.** One is the engine-neutral master
  bank (`CaptureBank`). The other is the Linux libdc1394 bank
  (`LinuxCapture`), which also models the colour-coding and pixel-depth
  rules and the Format-7 packet-size arithmetic.

State the code changes in place is a class. The register block is the
sequence of bytes `fRadeonRegs` inside `PsychtoolboxKernelDriver`. The
record banks are arrays, and the registry table is an array of entries.
Pure lookups and arithmetic are functions.

The model treats hardware and outside libraries as follows:

- **Hardware that changes on its own is an input.** This covers the beam
  counter, the display FIFO and the interrupt status. Each polling loop
  reads from a finite sequence of samples, standing in for what the
  hardware reports at each read.
- **A busy-wait that runs out of samples returns `None`.** This stands for
  the driver never returning from that loop.
- **An outside library's answer is a parameter.** This covers the PCI
  provider, libdc1394's camera list, the engine open calls, GLEW
  initialisation and `PsychMatch`.
- **Header constants keep their names.** Constants whose values are not
  shown are declared without a value, and the proofs hold for any values
  they might have. Examples are `RADEON_*`, `kPsychKD*`,
  `PSYCH_MAX_FUNCTIONS` and the text-mode constants.
- **The beam-position mask is concrete.** It is
  `RADEON_VBEAMPOSITION_BITMASK == 0x1fff`, as
  `Psychtoolbox-3.0.8/PsychSourceGL/Source/Common/Screen/SCREENNull.c:97`
  defines it.

Where the documentation and the code disagree, the model follows the code:

- `stop()` resets the interrupt cookie to `0xdeadbeef`. That is the value
  the handler accepts, not a disarming value.
- The dispatcher's default branch sets `kIOReturnBadArgument` but returns
  `kIOReturnSuccess`.
- The register guard is `offset >= size - 4`, so the last word of the
  block is never accessible. The guard the model executes is the corrected
  `RegisterBlock.Accessible`: on every block of at least 4 bytes it accepts
  exactly what the UInt32 guard accepts, and on a shorter mapped block it
  rejects the offsets the UInt32 guard lets through by wrapping (see
  Findings).
- `GetBeamPosition` adds V_TOTAL to the difference in SInt32. A sum below
  the SInt32 range is undefined in C; the model takes the two's-complement
  wrap the hardware performs.
- The Radeon candidate window `0x1000 <= length <= 0x10000` includes both
  ends.

## Model

Paths are relative to the Psychtoolbox source tree.

| member | source | states |
|---|---|---|
| RegisterBlock.ReadWrittenWord | Psychtoolbox-3.0.8/PsychSourceGL/Cohorts/PsychtoolboxOSXKernelDriver/PsychtoolboxKernelDriver.cpp:667-680 | A little-endian word stored at an offset reads back as the same word |
| RegisterBlock.ReadOtherWord | Psychtoolbox-3.0.8/PsychSourceGL/Cohorts/PsychtoolboxOSXKernelDriver/PsychtoolboxKernelDriver.cpp:667-680 | Storing a word leaves every non-overlapping word as it was |
| RegisterBlock.Sub32 | Psychtoolbox-3.0.8/PsychSourceGL/Cohorts/PsychtoolboxOSXKernelDriver/PsychtoolboxKernelDriver.cpp:664 | UInt32 subtraction is the true difference when it does not underflow, and wraps by 2^32 otherwise |
| RegisterBlock.AccessibleAgreesAsWritten | Psychtoolbox-3.0.8/PsychSourceGL/Cohorts/PsychtoolboxOSXKernelDriver/PsychtoolboxKernelDriver.cpp:664 | For blocks of at least 4 bytes the corrected guard accepts exactly what the UInt32 guard accepts; every accepted offset has the whole word, and the word at size-4, strictly inside the block |
| RegisterBlock.AsWrittenOverrunsShortBlock | Psychtoolbox-3.0.8/PsychSourceGL/Cohorts/PsychtoolboxOSXKernelDriver/PsychtoolboxKernelDriver.cpp:664 | With a mapped block shorter than 4 bytes the UInt32 guard lets offsets through, including ones far beyond the block |
| RegisterBlock.Peek | Psychtoolbox-3.0.8/PsychSourceGL/Cohorts/PsychtoolboxOSXKernelDriver/PsychtoolboxKernelDriver.cpp:658-668 | A read from an unmapped block or an offset the corrected guard `Accessible` rejects yields 0; otherwise the little-endian word at the offset |
| RegisterBlock.Poke | Psychtoolbox-3.0.8/PsychSourceGL/Cohorts/PsychtoolboxOSXKernelDriver/PsychtoolboxKernelDriver.cpp:671-686 | A write the corrected guard `Accessible` rejects changes nothing; an accepted one changes only the four bytes at the offset |
| RegisterBlock.PokeThenPeek | Psychtoolbox-3.0.8/PsychSourceGL/Cohorts/PsychtoolboxOSXKernelDriver/PsychtoolboxKernelDriver.cpp:664-680 | Reading back a written offset gives the written value if the offset is accessible, 0 otherwise |
| RegisterBlock.PokeFrame | Psychtoolbox-3.0.8/PsychSourceGL/Cohorts/PsychtoolboxOSXKernelDriver/PsychtoolboxKernelDriver.cpp:667-680 | A write leaves every other non-overlapping register reading as before |
| RegisterBlock.UnmappedIsInert | Psychtoolbox-3.0.8/PsychSourceGL/Cohorts/PsychtoolboxOSXKernelDriver/PsychtoolboxKernelDriver.cpp:664-677 | With no block mapped, every read is 0 and every write is a no-op |
| RegisterBlock.PokeOverwrite | Psychtoolbox-3.0.8/PsychSourceGL/Cohorts/PsychtoolboxOSXKernelDriver/PsychtoolboxKernelDriver.cpp:680 | Of two writes to the same offset only the second is visible |
| RegisterBlock.PokeSame | Psychtoolbox-3.0.8/PsychSourceGL/Cohorts/PsychtoolboxOSXKernelDriver/PsychtoolboxKernelDriver.cpp:667-680 | Writing back the value just read leaves the block unchanged |
| BeamPosition.BeamFrom | Psychtoolbox-3.0.8/PsychSourceGL/Cohorts/PsychtoolboxOSXKernelDriver/PsychtoolboxKernelDriver.cpp:753-772 | The beam position lies in [0, 2^31): raw line minus blank end when that is not negative, and that difference plus the signed V_TOTAL when the sum is not negative |
| BeamPosition.BeamClampedToZero | Psychtoolbox-3.0.8/PsychSourceGL/Cohorts/PsychtoolboxOSXKernelDriver/PsychtoolboxKernelDriver.cpp:759-762 | A difference that V_TOTAL leaves negative, inside the SInt32 range, is capped at 0 |
| BeamPosition.BeamWrapsAround | Psychtoolbox-3.0.8/PsychSourceGL/Cohorts/PsychtoolboxOSXKernelDriver/PsychtoolboxKernelDriver.cpp:759 | A sum below the SInt32 range wraps around by 2^32, as two's-complement addition does |
| BeamPosition.BeamWithinFrame | Psychtoolbox-3.0.8/PsychSourceGL/Cohorts/PsychtoolboxOSXKernelDriver/PsychtoolboxKernelDriver.cpp:753-762 | When both raw line and blank end lie inside the frame, the result lies in [0, vtotal) |
| BeamPosition.BeamExample | Psychtoolbox-3.0.8/PsychSourceGL/Cohorts/PsychtoolboxOSXKernelDriver/PsychtoolboxKernelDriver.cpp:753-762 | Raw 500, blank end 40, total 900 gives 460; raw 10 gives 870 through the wraparound |
| BeamPosition.LowestSetBitIsLowest | Psychtoolbox-3.0.8/PsychSourceGL/Cohorts/PsychtoolboxOSXKernelDriver/PsychtoolboxKernelDriver.cpp:704-711 | The lowest set bit k of v splits it as an odd number times 2^k, so no lower bit is set |
| BeamPosition.SuperStage | Psychtoolbox-3.0.8/PsychSourceGL/Cohorts/PsychtoolboxOSXKernelDriver/PsychtoolboxKernelDriver.cpp:704-711 | The supervisor stage is 0 exactly when no stage is pending |
| BeamPosition.ClearWritesStep | Psychtoolbox-3.0.8/PsychSourceGL/Cohorts/PsychtoolboxOSXKernelDriver/PsychtoolboxKernelDriver.cpp:800-826 | Each loop round appends one clearing write exactly when head i's bit was set in the original word; earlier rounds' writes are a prefix of all rounds' writes |
| BeamPosition.ResyncWritesRestore | Psychtoolbox-3.0.8/PsychSourceGL/Cohorts/PsychtoolboxOSXKernelDriver/PsychtoolboxKernelDriver.cpp:795-849 | The last write restores the original word; there is one clearing write per set head bit, and each only clears bits, differs from the original and touches no bit but the two head bits |
| BeamPosition.WaitEndUnique | Psychtoolbox-3.0.8/PsychSourceGL/Cohorts/PsychtoolboxOSXKernelDriver/PsychtoolboxKernelDriver.cpp:808-813 | The two busy-waits of a head end at a single well-defined sample |
| BeamPosition.WaitNeverRises | Psychtoolbox-3.0.8/PsychSourceGL/Cohorts/PsychtoolboxOSXKernelDriver/PsychtoolboxKernelDriver.cpp:808 | A beam that never passes line 240 never releases the first wait |
| BeamPosition.WaitNeverFalls | Psychtoolbox-3.0.8/PsychSourceGL/Cohorts/PsychtoolboxOSXKernelDriver/PsychtoolboxKernelDriver.cpp:813 | A beam that passes line 240 and stays above it never releases the second wait |
| PciAttach.CandidatesMembership | Psychtoolbox-3.0.8/PsychSourceGL/Cohorts/PsychtoolboxOSXKernelDriver/PsychtoolboxKernelDriver.cpp:196-202 | The candidate list holds exactly the ranges whose length lies in the window |
| PciAttach.TypeFor | Psychtoolbox-3.0.8/PsychSourceGL/Cohorts/PsychtoolboxOSXKernelDriver/PsychtoolboxKernelDriver.cpp:113-123 | The device is a GeForce exactly when the vendor is NVIDIA, and a Radeon otherwise |
| PciAttach.BarFor | Psychtoolbox-3.0.8/PsychSourceGL/Cohorts/PsychtoolboxOSXKernelDriver/PsychtoolboxKernelDriver.cpp:113-123 | NVIDIA selects BAR0; every other vendor selects BAR2 |
| PciAttach.ProbePasses | Psychtoolbox-3.0.8/PsychSourceGL/Cohorts/PsychtoolboxOSXKernelDriver/PsychtoolboxKernelDriver.cpp:196-229 | A GeForce passes unprobed; a Radeon passes only with exactly one candidate range, in the size window, whose address and length match the range behind BAR 2 |
| PciAttach.Attaches | Psychtoolbox-3.0.8/PsychSourceGL/Cohorts/PsychtoolboxOSXKernelDriver/PsychtoolboxKernelDriver.cpp:196-260 | An attached GeForce has BAR 0 mapped; an attached Radeon has BAR 2 mapped and exactly one candidate range |
| PciAttach.CandidatesAppend | Psychtoolbox-3.0.8/PsychSourceGL/Cohorts/PsychtoolboxOSXKernelDriver/PsychtoolboxKernelDriver.cpp:190-205 | One more range adds itself to the candidates exactly when it is in the window |
| PciAttach.RadeonWithOneCandidateAttaches | Psychtoolbox-3.0.8/PsychSourceGL/Cohorts/PsychtoolboxOSXKernelDriver/PsychtoolboxKernelDriver.cpp:181-251 | A Radeon with one candidate range equal to its BAR2 range, and a mappable BAR2, keeps its device |
| PciAttach.RadeonWithTwoCandidatesFails | Psychtoolbox-3.0.8/PsychSourceGL/Cohorts/PsychtoolboxOSXKernelDriver/PsychtoolboxKernelDriver.cpp:220-229 | Two candidate ranges make the Radeon probe detach the device |
| PciAttach.RadeonWithNoCandidateFails | Psychtoolbox-3.0.8/PsychSourceGL/Cohorts/PsychtoolboxOSXKernelDriver/PsychtoolboxKernelDriver.cpp:220-229 | No candidate range makes the Radeon probe detach the device |
| PciAttach.GeForceSkipsProbe | Psychtoolbox-3.0.8/PsychSourceGL/Cohorts/PsychtoolboxOSXKernelDriver/PsychtoolboxKernelDriver.cpp:113-116 | An NVIDIA device attaches exactly when BAR0 can be mapped; memory ranges play no part |
| PciAttach.CandidatesConcat | Psychtoolbox-3.0.8/PsychSourceGL/Cohorts/PsychtoolboxOSXKernelDriver/PsychtoolboxKernelDriver.cpp:190-205 | The candidates of a joined list are the candidates of each part, in order |
| KernelDriver.ScanMemoryRanges | Psychtoolbox-3.0.8/PsychSourceGL/Cohorts/PsychtoolboxOSXKernelDriver/PsychtoolboxKernelDriver.cpp:181-218 | The probe loop counts the candidate ranges and remembers the last one |
| KernelDriver.SampledBeamAt | Psychtoolbox-3.0.8/PsychSourceGL/Cohorts/PsychtoolboxOSXKernelDriver/PsychtoolboxKernelDriver.cpp:808-813 | The k-th polled beam position is the beam formula applied to the k-th hardware sample |
| KernelDriver.MasterWriteStep | Psychtoolbox-3.0.8/PsychSourceGL/Cohorts/PsychtoolboxOSXKernelDriver/PsychtoolboxKernelDriver.cpp:817 | Writes to the master-enable word accumulate in order, and the word reads as the last write |
| KernelDriver.MasterRestore | Psychtoolbox-3.0.8/PsychSourceGL/Cohorts/PsychtoolboxOSXKernelDriver/PsychtoolboxKernelDriver.cpp:849 | Writing the originally read word back after any clearing writes restores the block exactly |
| KernelDriver.MasterWriteKeepsBeams | Psychtoolbox-3.0.8/PsychSourceGL/Cohorts/PsychtoolboxOSXKernelDriver/PsychtoolboxKernelDriver.cpp:808-817 | Writing the master-enable word does not change the beam positions the waits observe |
| KernelDriver.LowestStage | Psychtoolbox-3.0.8/PsychSourceGL/Cohorts/PsychtoolboxOSXKernelDriver/PsychtoolboxKernelDriver.cpp:703-711 | The shift-and-count loop yields the index of the lowest pending stage, 0 if none |
| KernelDriver.AckWordIsLowestPendingBit | Psychtoolbox-3.0.8/PsychSourceGL/Cohorts/PsychtoolboxOSXKernelDriver/PsychtoolboxKernelDriver.cpp:703-724 | The acknowledge word is the lowest pending bit (v & -v) shifted into bits 4..6 |
| KernelDriver.HandshakeKeepsOtherRegisters | Psychtoolbox-3.0.8/PsychSourceGL/Cohorts/PsychtoolboxOSXKernelDriver/PsychtoolboxKernelDriver.cpp:702-727 | The handshake loop changes no register other than the supervisor and its acknowledge register |
| KernelDriver.AcknowledgeWritesLowestStage | Psychtoolbox-3.0.8/PsychSourceGL/Cohorts/PsychtoolboxOSXKernelDriver/PsychtoolboxKernelDriver.cpp:713-726 | With a stage pending, the supervisor is acknowledged with that stage's bit and the FIFO is marked busy |
| KernelDriver.UnmappedCommandReturnsAtOnce | Psychtoolbox-3.0.8/PsychSourceGL/Cohorts/PsychtoolboxOSXKernelDriver/PsychtoolboxKernelDriver.cpp:699-702 | With no block mapped, the busy test reads 0, so the command returns after one poll and changes nothing |
| KernelDriver.HandlerAcksHead0 | Psychtoolbox-3.0.8/PsychSourceGL/Cohorts/PsychtoolboxOSXKernelDriver/PsychtoolboxKernelDriver.cpp:603-612 | A VBLANK on head 0 gets VBLANK_ACK written to its status register |
| KernelDriver.HandlerAcksHead1 | Psychtoolbox-3.0.8/PsychSourceGL/Cohorts/PsychtoolboxOSXKernelDriver/PsychtoolboxKernelDriver.cpp:614-622 | A VBLANK on head 1 gets VBLANK_ACK written to its status register |
| KernelDriver.HandlerWritesBackStatus | Psychtoolbox-3.0.8/PsychSourceGL/Cohorts/PsychtoolboxOSXKernelDriver/PsychtoolboxKernelDriver.cpp:600-626 | A nonzero interrupt status is written back to GEN_INT_STATUS; a zero status leaves the block untouched |
| KernelDriver.SwitchCase | Psychtoolbox-3.0.8/PsychSourceGL/Cohorts/PsychtoolboxOSXKernelDriver/PsychtoolboxKernelDriver.cpp:953-988 | An opcode falls to the default branch exactly when it matches none of the seven named commands |
| KernelDriver.ToWord | Psychtoolbox-3.0.8/PsychSourceGL/Cohorts/PsychtoolboxOSXKernelDriver/PsychtoolboxKernelDriver.cpp:862-876 | A signed 32-bit result is stored in a UInt32 argument as its two's-complement word |
| KernelDriver.UnknownCommandSucceeds | Psychtoolbox-3.0.8/PsychSourceGL/Cohorts/PsychtoolboxOSXKernelDriver/PsychtoolboxKernelDriver.cpp:985-992 | An in-range opcode naming no command lands in the default branch; there the served reply is exactly: the call returns, the output block is passed through and the registers are untouched (success with the size set comes from the dispatch row) |
| KernelDriver.PsychtoolboxKernelDriver.Init | Psychtoolbox-3.0.8/PsychSourceGL/Cohorts/PsychtoolboxOSXKernelDriver/PsychtoolboxKernelDriver.cpp:368-388 | After a successful super::init the driver is inert: no device, no mapping, cookie 0xdeadbeef, counters 0; a failed super::init changes nothing |
| KernelDriver.PsychtoolboxKernelDriver.InertReadsZero | Psychtoolbox-3.0.8/PsychSourceGL/Cohorts/PsychtoolboxOSXKernelDriver/PsychtoolboxKernelDriver.cpp:344-355 | An inert driver reads 0 from every register |
| KernelDriver.PsychtoolboxKernelDriver.Start | Psychtoolbox-3.0.8/PsychSourceGL/Cohorts/PsychtoolboxOSXKernelDriver/PsychtoolboxKernelDriver.cpp:59-311 | start returns super::start's verdict; the device type follows the vendor; the device is kept and its BAR mapped exactly when attaching succeeds, and is dropped otherwise |
| KernelDriver.PsychtoolboxKernelDriver.Stop | Psychtoolbox-3.0.8/PsychSourceGL/Cohorts/PsychtoolboxOSXKernelDriver/PsychtoolboxKernelDriver.cpp:318-362 | Without a device stop changes nothing; with one it leaves the driver inert so every register reads 0, and removing the interrupt source resets the cookie and counter |
| KernelDriver.PsychtoolboxKernelDriver.ReadRegister | Psychtoolbox-3.0.8/PsychSourceGL/Cohorts/PsychtoolboxOSXKernelDriver/PsychtoolboxKernelDriver.cpp:658-668 | Returns the little-endian word at the offset, or 0 when no block is mapped or the corrected guard `Accessible` rejects the offset |
| KernelDriver.PsychtoolboxKernelDriver.WriteRegister | Psychtoolbox-3.0.8/PsychSourceGL/Cohorts/PsychtoolboxOSXKernelDriver/PsychtoolboxKernelDriver.cpp:671-686 | The new block is the write of the value into the old one, refused by the corrected guard `Accessible` as `Poke` states |
| KernelDriver.PsychtoolboxKernelDriver.GetBeamPosition | Psychtoolbox-3.0.8/PsychSourceGL/Cohorts/PsychtoolboxOSXKernelDriver/PsychtoolboxKernelDriver.cpp:748-773 | The result is the beam formula over the head's three registers, below 2^31, and 0 with no block mapped |
| KernelDriver.PsychtoolboxKernelDriver.WaitForRefreshStart | Psychtoolbox-3.0.8/PsychSourceGL/Cohorts/PsychtoolboxOSXKernelDriver/PsychtoolboxKernelDriver.cpp:806-814 | The two busy-waits of one head end at the first sample where the beam has risen above line 240 and fallen back; if they do not end, no prefix of the samples completes them |
| KernelDriver.PsychtoolboxKernelDriver.FastSynchronizeAllDisplayHeads | Psychtoolbox-3.0.8/PsychSourceGL/Cohorts/PsychtoolboxOSXKernelDriver/PsychtoolboxKernelDriver.cpp:776-877 | On return the master word was written once per set head bit to clear it and finally restored, so the block is as before, and the result is beampos1 - beampos0 after the restart; it returns exactly when every enabled head's waits complete |
| KernelDriver.PsychtoolboxKernelDriver.StopAllHeads | Psychtoolbox-3.0.8/PsychSourceGL/Cohorts/PsychtoolboxOSXKernelDriver/PsychtoolboxKernelDriver.cpp:800-826 | The loop over heads 0 and 1 issues a prefix of the clearing writes, all of them when it finishes, and finishes exactly when each enabled head's waits complete |
| KernelDriver.PsychtoolboxKernelDriver.StopHead | Psychtoolbox-3.0.8/PsychSourceGL/Cohorts/PsychtoolboxOSXKernelDriver/PsychtoolboxKernelDriver.cpp:802-825 | A head whose bit is clear is skipped; an enabled head is waited for and then its bit is cleared in the master word |
| KernelDriver.PsychtoolboxKernelDriver.G80DispCommand | Psychtoolbox-3.0.8/PsychSourceGL/Cohorts/PsychtoolboxOSXKernelDriver/PsychtoolboxKernelDriver.cpp:695-728 | The command is issued, and supervisor requests are served while the FIFO reads busy; it returns at the first idle poll, or never if every poll is busy |
| KernelDriver.PollsUntilIdle | Psychtoolbox-3.0.8/PsychSourceGL/Cohorts/PsychtoolboxOSXKernelDriver/PsychtoolboxKernelDriver.cpp:702-727 | The handshake loop ends at the first poll whose control word is no longer busy, and only there; when every poll is busy it does not end |
| KernelDriver.DitherModeCompletes | Psychtoolbox-3.0.8/PsychSourceGL/Cohorts/PsychtoolboxOSXKernelDriver/PsychtoolboxKernelDriver.cpp:736-740 | When the first handshake ends at poll n1 and the second n2 polls later, SetDitherMode's block is the two display commands done in order |
| KernelDriver.DitherModeStalls | Psychtoolbox-3.0.8/PsychSourceGL/Cohorts/PsychtoolboxOSXKernelDriver/PsychtoolboxKernelDriver.cpp:736-740 | When every poll after the first handshake reads busy, SetDitherMode does not return |
| KernelDriver.PsychtoolboxKernelDriver.ServeUntilIdle | Psychtoolbox-3.0.8/PsychSourceGL/Cohorts/PsychtoolboxOSXKernelDriver/PsychtoolboxKernelDriver.cpp:702-727 | The handshake loop serves every busy poll before the first idle one and stops there |
| KernelDriver.PsychtoolboxKernelDriver.ServeSupervisor | Psychtoolbox-3.0.8/PsychSourceGL/Cohorts/PsychtoolboxOSXKernelDriver/PsychtoolboxKernelDriver.cpp:703-726 | One loop round acknowledges the lowest pending stage, if any |
| KernelDriver.PsychtoolboxKernelDriver.SetDitherMode | Psychtoolbox-3.0.8/PsychSourceGL/Cohorts/PsychtoolboxOSXKernelDriver/PsychtoolboxKernelDriver.cpp:731-745 | Issues the head's dither method (0x11 when on, 0 when off) and then the update command 0x80, each completing its own handshake; it returns exactly when both handshakes end (`DitherModeDone`), leaving the block that function gives, and otherwise every poll of the first handshake, or every poll after it, reads busy |
| KernelDriver.PsychtoolboxKernelDriver.HandleVBLIRQ | Psychtoolbox-3.0.8/PsychSourceGL/Cohorts/PsychtoolboxOSXKernelDriver/PsychtoolboxKernelDriver.cpp:647-653 | Increments the given head's VBL counter by one and no other |
| KernelDriver.PsychtoolboxKernelDriver.FastPathInterruptHandler | Psychtoolbox-3.0.8/PsychSourceGL/Cohorts/PsychtoolboxOSXKernelDriver/PsychtoolboxKernelDriver.cpp:567-635 | Never escalates; the (NULL, NULL) call changes nothing; a bad cookie touches no register or counter; a valid one acknowledges the interrupted heads, counts their VBLs, writes the status back and counts one interrupt |
| KernelDriver.PsychtoolboxKernelDriver.ServiceInterrupt | Psychtoolbox-3.0.8/PsychSourceGL/Cohorts/PsychtoolboxOSXKernelDriver/PsychtoolboxKernelDriver.cpp:600-626 | The status is read, the display status only when the display bit is set, and the block and counters become their acknowledged forms |
| KernelDriver.PsychtoolboxKernelDriver.PsychKDDispatchCommand | Psychtoolbox-3.0.8/PsychSourceGL/Cohorts/PsychtoolboxOSXKernelDriver/PsychtoolboxKernelDriver.cpp:938-993 | An out-of-range opcode returns BadArgument with the size unset and no register touched; every in-range opcode that returns answers success with the size set; each case leaves the output and registers its handler defines, the fast-sync case returns exactly when the resync completes and the dither case exactly when both handshakes end |
| KernelDriver.PsychtoolboxKernelDriver.FastSyncCommand | Psychtoolbox-3.0.8/PsychSourceGL/Cohorts/PsychtoolboxOSXKernelDriver/PsychtoolboxKernelDriver.cpp:954-957 | Replies with the restart offset as a UInt32 and leaves the block as it was; it returns exactly when the resync completes |
| KernelDriver.PsychtoolboxKernelDriver.DitherCommand | Psychtoolbox-3.0.8/PsychSourceGL/Cohorts/PsychtoolboxOSXKernelDriver/PsychtoolboxKernelDriver.cpp:984-986 | Returns exactly when both display commands of SetDitherMode end, leaving the block `DitherModeDone` gives |
| KernelDriver.PsychtoolboxKernelDriver.BeamCommand | Psychtoolbox-3.0.8/PsychSourceGL/Cohorts/PsychtoolboxOSXKernelDriver/PsychtoolboxKernelDriver.cpp:964-967 | Replies with the beam position of the requested head |
| KernelDriver.PsychtoolboxKernelDriver.ReadCommand | Psychtoolbox-3.0.8/PsychSourceGL/Cohorts/PsychtoolboxOSXKernelDriver/PsychtoolboxKernelDriver.cpp:973-975 | Replies with the guarded register word at the requested offset |
| Registry.RegisterKeepsInvariant | Psychtoolbox-3.0.7/PsychSourceGL/Source/Common/Base/PsychRegisterProject.c:69-84 | An accepted registration fills the next slot and keeps the names distinct, non-empty and short, with empty slots after the count |
| Registry.SubfunctionVerdict | Psychtoolbox-3.0.7/PsychSourceGL/Source/Common/Base/PsychRegisterProject.c:69-81 | A full table is refused before anything else, a name already in a slot next; success needs room, a new name and a name that fits the length limit |
| Registry.LongNameKeepsInvariant | Psychtoolbox-3.0.7/PsychSourceGL/Source/Common/Base/PsychRegisterProject.c:79-81 | A too-long name stores only the function pointer and leaves the table's shape intact |
| Registry.EmptyNameIsRegistered | Psychtoolbox-3.0.7/PsychSourceGL/Source/Common/Base/PsychRegisterProject.c:73-76 | The empty name is always refused, because never-filled slots carry it |
| Registry.SecondRegistrationRefused | Psychtoolbox-3.0.7/PsychSourceGL/Source/Common/Base/PsychRegisterProject.c:69-76 | A name registered once is refused the second time |
| Registry.FirstMatch | Psychtoolbox-3.0.7/PsychSourceGL/Source/Common/Base/PsychRegisterProject.c:124-132 | Finds the first slot below the count whose name matches, and no earlier one matches; None means no slot matches |
| Registry.StripHelp | Psychtoolbox-3.0.7/PsychSourceGL/Source/Common/Base/PsychRegisterProject.c:117-121 | The help flag is set exactly when the command ends in '?', which is then removed; otherwise the command is kept |
| Registry.Registry.constructor | Psychtoolbox-3.0.7/PsychSourceGL/Source/Common/Base/PsychRegisterProject.c:21-26 | All registers start empty, with no subfunctions and every slot unnamed |
| Registry.Registry.PsychRegister | Psychtoolbox-3.0.7/PsychSourceGL/Source/Common/Base/PsychRegisterProject.c:52-86 | (NULL, NULL) is an internal error and changes nothing; a NULL name registers the base; a NULL function registers the module name; otherwise the subfunction verdict decides, and only success adds the entry and bumps the count by one |
| Registry.Registry.RegisterSubfunction | Psychtoolbox-3.0.7/PsychSourceGL/Source/Common/Base/PsychRegisterProject.c:69-85 | Full table and duplicate names are refused unchanged; a long name writes the pointer but not the name or count; success stores the entry at the count |
| Registry.Registry.PsychRegisterExit | Psychtoolbox-3.0.7/PsychSourceGL/Source/Common/Base/PsychRegisterProject.c:90-97 | The exit function is set once; a second attempt is refused and keeps the first |
| Registry.Registry.PsychRegisterModuleName | Psychtoolbox-3.0.7/PsychSourceGL/Source/Common/Base/PsychRegisterProject.c:172-185 | The name is set once; a second attempt or a too-long name is refused and leaves the name unregistered or unchanged |
| Registry.Registry.PsychRegisterBase | Psychtoolbox-3.0.7/PsychSourceGL/Source/Common/Base/PsychRegisterProject.c:194-202 | The base function is set once; a second attempt is refused and keeps the first |
| Registry.Registry.PsychGetProjectFunction | Psychtoolbox-3.0.7/PsychSourceGL/Source/Common/Base/PsychRegisterProject.c:107-133 | No command gives the base function and clears the current name; otherwise the '?' is stripped into the help flag and the first matching entry is returned and made current, or NULL |
| Registry.Registry.ScanTable | Psychtoolbox-3.0.7/PsychSourceGL/Source/Common/Base/PsychRegisterProject.c:124-129 | The scan loop finds the first matching slot below the count |
| Registry.Registry.PsychGetFunctionName | Psychtoolbox-3.0.7/PsychSourceGL/Source/Common/Base/PsychRegisterProject.c:137-146 | The current subfunction's name, and "" exactly when there is none |
| MoglCore.StrCmpZeroIffEqual | beta/Psychtoolbox/PsychOpenGL/MOGL/source/moglcore.c:121 | strcmp is 0 exactly on equal strings |
| MoglCore.StrCmpFlip | beta/Psychtoolbox/PsychOpenGL/MOGL/source/moglcore.c:121-125 | Swapping the operands negates strcmp |
| MoglCore.StrCmpTransitive | beta/Psychtoolbox/PsychOpenGL/MOGL/source/moglcore.c:121-125 | strcmp's order is transitive |
| MoglCore.SearchFrom | beta/Psychtoolbox/PsychOpenGL/MOGL/source/moglcore.c:115-129 | The search answers -1 or an index in range whose command equals the string |
| MoglCore.SearchFromComplete | beta/Psychtoolbox/PsychOpenGL/MOGL/source/moglcore.c:117-128 | On a strictly sorted map whose range fits the remaining probes, -1 means the string is in no slot of the range |
| MoglCore.BinSearch | beta/Psychtoolbox/PsychOpenGL/MOGL/source/moglcore.c:115-129 | The loop computes the search, returns -1 for mapsize <= 0 without probing, and never probes more than 100 times |
| MoglCore.BinSearchComplete | beta/Psychtoolbox/PsychOpenGL/MOGL/source/moglcore.c:115-129 | On a strictly sorted map of fewer than 2^100 commands, -1 is returned exactly when the string is absent |
| MoglCore.CommandString | beta/Psychtoolbox/PsychOpenGL/MOGL/source/moglcore.c:49 | The command is a prefix of the argument shorter than 64 characters, and the whole argument when it fits |
| MoglCore.SearchIsLookup | beta/Psychtoolbox/PsychOpenGL/MOGL/source/moglcore.c:72-107 | A lookup over a whole map is the binary search over it |
| MoglCore.MoglCore.MexFunction | beta/Psychtoolbox/PsychOpenGL/MOGL/source/moglcore.c:39-111 | No string is a usage error; PREINIT returns at once; then glm, then (after GLEW init, which clears firsttime only on success) manual, then auto are searched, the first hit runs and no hit is a usage error |
| MoglCore.DispatchOrder | beta/Psychtoolbox/PsychOpenGL/MOGL/source/moglcore.c:98-110 | With sorted maps, both lookups fail exactly when the command is in neither map, and a command in the manual map is found there first |
| TextGlue.ModeNameOfConstant | trunk/PsychSourceGL/Source/Windows/Screen/PsychWindowTextGlue.c:77-88 | Known constants give the name at the first matching index, at most 255 characters; an unknown constant is the internal error |
| TextGlue.ModeConstantOfName | trunk/PsychSourceGL/Source/Windows/Screen/PsychWindowTextGlue.c:97-108 | Known names give the constant at the first matching index; an unknown name is the error result and sets no mode |
| TextGlue.NamesDistinct | trunk/PsychSourceGL/Source/Windows/Screen/PsychWindowTextGlue.c:33-35 | The eight mode names are pairwise different |
| TextGlue.NameRoundTrip | trunk/PsychSourceGL/Source/Windows/Screen/PsychWindowTextGlue.c:33-38 | With distinct constants, each table index maps name to its constant and constant to its name |
| TextGlue.ConstantRoundTrip | trunk/PsychSourceGL/Source/Windows/Screen/PsychWindowTextGlue.c:77-108 | Constant to name to constant gives back the constant |
| TextGlue.PsychTextAttributes.PsychInitTextRecordSettings | trunk/PsychSourceGL/Source/Windows/Screen/PsychWindowTextGlue.c:41-71 | Text fill mode, position (0,0), size 18, style 1, font "Courier New" number 0, colours index 0, no display list and a rebuild pending |
| CaptureBank.CountOpenUpdate | trunk/PsychSourceGL/Source/Common/Screen/PsychVideoCaptureSupport.c:151-157 | Opening or closing one slot changes the number of open slots by exactly one |
| CaptureBank.CountOpenFull | trunk/PsychSourceGL/Source/Common/Screen/PsychVideoCaptureSupport.c:109-117 | The count equals the bank size exactly when every slot is open |
| CaptureBank.CountOpenEmpty | trunk/PsychSourceGL/Source/Common/Screen/PsychVideoCaptureSupport.c:197-204 | The count is zero exactly when every slot is free |
| CaptureBank.TextureRoute | trunk/PsychSourceGL/Source/Common/Screen/PsychVideoCaptureSupport.c:223-235 | The texture fetch rejects exactly the out-of-range handles and the free slots |
| CaptureBank.RouteTo | trunk/PsychSourceGL/Source/Common/Screen/PsychVideoCaptureSupport.c:228-235 | A live slot goes to engine 0 or 1 exactly when that engine is built in and named by the slot; otherwise it falls past every engine test |
| CaptureBank.RateRouteAsWritten | trunk/PsychSourceGL/Source/Common/Screen/PsychVideoCaptureSupport.c:247-261 | As written, the rate call rejects only out-of-range handles |
| CaptureBank.RateRouteAsWrittenAcceptsClosedHandle | trunk/PsychSourceGL/Source/Common/Screen/PsychVideoCaptureSupport.c:249-260 | As written, a closed handle in range reaches no engine and the call ends without a return value |
| CaptureBank.RateRoute | trunk/PsychSourceGL/Source/Common/Screen/PsychVideoCaptureSupport.c:247-261 | The corrected check rejects out-of-range handles and free slots, like the texture fetch |
| CaptureBank.RateRouteReachesEngine | trunk/PsychSourceGL/Source/Common/Screen/PsychVideoCaptureSupport.c:247-282 | With the corrected check every accepted handle of a consistent bank reaches its own engine |
| CaptureBank.MasterVidcapBank.PsychVideoCaptureInit | trunk/PsychSourceGL/Source/Common/Screen/PsychVideoCaptureSupport.c:48-68 | Every slot gets engine -1 and the count becomes 0 |
| CaptureBank.MasterVidcapBank.FindFreeSlot | trunk/PsychSourceGL/Source/Common/Screen/PsychVideoCaptureSupport.c:114 | The scan stops at the lowest free slot, or at the bank size when none is free |
| CaptureBank.MasterVidcapBank.PsychOpenVideoCaptureDevice | trunk/PsychSourceGL/Source/Common/Screen/PsychVideoCaptureSupport.c:93-161 | Errors, in order, for non-onscreen windows, negative indices, a full count and an unsupported engine, all before a slot is claimed; success claims the lowest free slot with the engine id, returns it as handle and counts one more device |
| CaptureBank.MasterVidcapBank.PsychCloseVideoCaptureDevice | trunk/PsychSourceGL/Source/Common/Screen/PsychVideoCaptureSupport.c:166-192 | Out-of-range handles and free slots are rejected unchanged; otherwise the slot is freed and the count drops by one |
| CaptureBank.MasterVidcapBank.PsychDeleteAllCaptureDevices | trunk/PsychSourceGL/Source/Common/Screen/PsychVideoCaptureSupport.c:197-204 | Afterwards every slot is free and the count is 0 |
| CaptureBank.MasterVidcapBank.PsychExitVideoCapture | trunk/PsychSourceGL/Source/Common/Screen/PsychVideoCaptureSupport.c:291-307 | Closes every device with the same per-record effect as delete-all, leaves free records alone, leaves the count at 0 and arms the cold-start flag |
| LinuxCapture.GetVidcapRecordAsWritten | beta/PsychSourceGL/Source/Linux/Screen/PsychOSVideoCaptureSupport.c:77-94 | As written, a handle is accepted only if it is a valid slot in range, but the range test looks at the open count |
| LinuxCapture.AsWrittenReadsPastBank | beta/PsychSourceGL/Source/Linux/Screen/PsychOSVideoCaptureSupport.c:84-88 | As written, handle 10 passes both tests and reads one record past the bank |
| LinuxCapture.AsWrittenRefusesOpenHandles | beta/PsychSourceGL/Source/Linux/Screen/PsychOSVideoCaptureSupport.c:84-86 | As written, with ten devices open every handle is refused, open ones included |
| LinuxCapture.GetVidcapRecord | beta/PsychSourceGL/Source/Linux/Screen/PsychOSVideoCaptureSupport.c:77-94 | Corrected: a handle is accepted exactly when it names a valid slot in the bank, and never reads past it |
| LinuxCapture.GetVidcapRecordAgreesBelowCapacity | beta/PsychSourceGL/Source/Linux/Screen/PsychOSVideoCaptureSupport.c:80-90 | Below capacity and inside the bank, the corrected check answers as the written one |
| LinuxCapture.ColorCodingAccepted | beta/PsychSourceGL/Source/Linux/Screen/PsychOSVideoCaptureSupport.c:354-362 | Only RAW8, MONO8 and RGB8 pass; a request of three or more layers takes exactly RGB8 and one of one or two exactly RAW8 or MONO8, and a request of zero or less takes exactly those three, so the accepted coding delivers 24 or 8 bits as requested |
| LinuxCapture.NativeDepth | beta/PsychSourceGL/Source/Linux/Screen/PsychOSVideoCaptureSupport.c:409 | The engine delivers 24 bits for RGB8 and 8 bits for any other coding |
| LinuxCapture.FinalPixelDepth | beta/PsychSourceGL/Source/Linux/Screen/PsychOSVideoCaptureSupport.c:412-440 | Requests of 0 to 4 layers become the native depth; any other request is an error |
| LinuxCapture.AcceptedCodingMatchesRequest | beta/PsychSourceGL/Source/Linux/Screen/PsychOSVideoCaptureSupport.c:354-361 | Only RAW8, MONO8 and RGB8 pass the filter; luminance requests get 8 bits and colour requests 24 |
| LinuxCapture.ClampPackets | beta/PsychSourceGL/Source/Linux/Screen/PsychOSVideoCaptureSupport.c:609-618 | The packet count is clamped to [1, 4095] and scaled by 8 |
| LinuxCapture.PacketSize | beta/PsychSourceGL/Source/Linux/Screen/PsychOSVideoCaptureSupport.c:605-630 | The packet size is a multiple of the smallest packet size, at most the largest, and at least the smallest when that fits |
| LinuxCapture.StepDown | beta/PsychSourceGL/Source/Linux/Screen/PsychOSVideoCaptureSupport.c:630 | The step-down loop leaves a size that already fits alone, and otherwise yields the top multiple of pbmin not above pbmax |
| LinuxCapture.VidcapBank.PsychVideoCaptureInit | beta/PsychSourceGL/Source/Linux/Screen/PsychOSVideoCaptureSupport.c:102-112 | Every record becomes invalid, nothing else in it changes, and the count becomes 0 |
| LinuxCapture.VidcapBank.FindFreeSlot | beta/PsychSourceGL/Source/Linux/Screen/PsychOSVideoCaptureSupport.c:217 | The scan stops at the lowest invalid record, or at the bank size |
| LinuxCapture.VidcapBank.PsychOpenVideoCaptureDevice | beta/PsychSourceGL/Source/Linux/Screen/PsychOSVideoCaptureSupport.c:183-320 | Window, index and count errors come first and leave every record as it was; a camera failure changes only the lowest free record, which keeps its settings, loses its camera and grabber and stays free; success fills the lowest free record (camera, ROI default [0,0,1,1], 8 DMA buffers by default), returns it as the handle and counts one more device |
| LinuxCapture.VidcapBank.PsychCloseVideoCaptureDevice | beta/PsychSourceGL/Source/Linux/Screen/PsychOSVideoCaptureSupport.c:146-166 | A rejected handle changes nothing; an open one has its grabber stopped and camera dropped, becomes invalid, and the count drops by one |
| LinuxCapture.VidcapBank.PsychDeleteAllCaptureDevices | beta/PsychSourceGL/Source/Linux/Screen/PsychOSVideoCaptureSupport.c:134-141 | Each valid record is closed (invalid, no camera, grabber stopped, frame count 0, other settings kept) and each free record is left as it was; afterwards no record is valid and the count is 0 |
| LinuxCapture.VidcapBank.PsychExitVideoCapture | beta/PsychSourceGL/Source/Linux/Screen/PsychOSVideoCaptureSupport.c:121-129 | Closes every device with the same per-record effect as delete-all, leaves free records alone, leaves the count at 0 and arms the cold-start flag |

## Left out

- IOKit plumbing is not modelled: `IOLog`, `IOSleep`, `OSSynchronizeIO`, provider retain and release, and the interrupt event source and work loop. `InitializeInterruptHandler` is switched off in `start` by `if (false && ...)`, so the model never installs a source.
- Concurrency between the interrupt path and the dispatcher is out of scope; the handler is a sequential method.
- The register block is a byte sequence owned by the driver. Aliasing through the IOMemoryMap, and hardware changing registers between reads, are not captured; the polled registers are sample sequences instead.
- The busy-waits on the beam, and the display-FIFO handshake, return `None` when the samples run out. This stands for not returning at all, since the driver spins without a bound.
- The pretest and posttest loops of `FastSynchronizeAllDisplayHeads`, and the status reads made only for logging, are left out.
- `DumpGfxState`, `kPsychKDDumpMiscInfo` and `kPsychKDGetStateSnapshot` only log or do nothing, so their cases are modelled as leaving the output unchanged.
- The pixel-clock check of the G80 handshake only logs and is left out.
- The R500 interrupt register offsets and status bits come from a register header that is not part of this model. Both are abstract constants; the proofs about the handler assume only that the three registers it writes share no byte.
- RegisterBlock.Peek, RegisterBlock.Poke, KernelDriver.PsychtoolboxKernelDriver.ReadRegister and KernelDriver.PsychtoolboxKernelDriver.WriteRegister: the guard they apply is the corrected `Accessible`, not the UInt32 guard as written. On a mapped block shorter than 4 bytes the written guard accepts wrapped offsets these members refuse (the second Findings row); on every other block the two agree (`AccessibleAgreesAsWritten`).
- LinuxCapture.VidcapBank.PsychCloseVideoCaptureDevice, LinuxCapture.VidcapBank.PsychDeleteAllCaptureDevices and LinuxCapture.VidcapBank.PsychExitVideoCapture: they check the handle with the corrected `GetVidcapRecord`. As written, with ten devices open the check refuses every handle (`AsWrittenRefusesOpenHandles`), so the close stops with an error and delete-all and exit abort at their first close; these members close every device instead.
- `MoglCore.SearchFromComplete`: states only that -1 means absent. The other direction is `MoglCore.BinSearchComplete`.
- `PsychMatch` is a parameter of `PsychGetProjectFunction`; its case-folding rules are not part of this model.
- The GLEW and MEX calls, and the handlers the maps dispatch to, are not modelled; GLEW's outcome is a parameter.
- The MATLAB argument unpacking of `PsychRegister`'s callers is not modelled.
- The libdc1394, QuickTime and OpenGL calls are parameters or left out, and so are the frame-rate matching (floating point), the dropped-frame counters and the intensity averages.
- The floating-point packet count from bus period and capture rate is an integer input, and the inverse frame-rate computation after the packet size is left out.
- `LinuxCapture.PacketSize` requires `pbmin` or `pbmax` to be positive. With both zero, the C code divides by zero.
- `w * h * depth` is unbounded in the model; the C `int` product can overflow.
- `modeNameStrSize` of the name lookup is not modelled; the copy is bounded by 255 characters as written.
- C `int` and pointer widths are unbounded; only the kernel driver's UInt32 and SInt32 arithmetic is modelled explicitly.

## Findings

| source | as written | input that shows it | evidently intended | confidence | as-written member | corrected member |
|---|---|---|---|---|---|---|
| beta/PsychSourceGL/Source/Linux/Screen/PsychOSVideoCaptureSupport.c:84-90 | The range test compares `numCaptureRecords`, not `deviceIndex`, with the bank size, then indexes the bank | `deviceIndex == 10` with fewer than ten devices open reads past the bank; with ten open, every open handle is refused | Test `deviceIndex >= PSYCH_MAX_CAPTUREDEVICES` | high, not executed | LinuxCapture.GetVidcapRecordAsWritten | LinuxCapture.GetVidcapRecord |
| Psychtoolbox-3.0.8/PsychSourceGL/Cohorts/PsychtoolboxOSXKernelDriver/PsychtoolboxKernelDriver.cpp:664 | `offset >= fRadeonSize-4` in UInt32 wraps when the mapped block is shorter than 4 bytes | size 3, offset 0xfffffff0 is accepted | Reject every offset whose word does not fit in the block | medium, not executed | RegisterBlock.AcceptsAsWritten | RegisterBlock.Accessible |
| trunk/PsychSourceGL/Source/Common/Screen/PsychVideoCaptureSupport.c:249 | `PsychVideoCaptureRate` (and `SetParameter` at line 270) checks only the handle range, so a free slot falls through every engine test and the function ends without a return value | an in-range handle whose slot has engine -1 | Also reject free slots, as `PsychGetTextureFromCapture` does at line 223 | high, not executed | CaptureBank.RateRouteAsWritten | CaptureBank.RateRoute |
