# tiny_io_oi in Dafny

A model of the parts of `tiny_io_oi` that hold algorithms and state machines, with proofs of what they promise.

| part | files |
|---|---|
| the in-place radix-2 transform, the peak search, the energy bands, what the kept half says | `ComplexNumbers`, `Dft`, `Fft`, `Spectrum`, `Twiddles`, `MiddleBin` |
| the median filter of 0x8C | `RangingFilter` |
| the lock-free arena and its counted handles | `ArenaSteps`, `ArenaAlloc`, `ArenaBound`, `Arena` |
| the 0xDE 0xAD stream and the serial bridge | `Framing`, `Gateway` |
| scripts and the micro VM, standard-library bytecode, the executor generated for bound structs | `VmTypes`, `Vm`, `StdStep`, `StdRun`, `Sensors`, `BoundNode` |
| the static verifier and the host-side bytecode builder | `Verifier`, `Estimates`, `ScriptBuilder`, `StepLaws` |
| the soldier node: scores, gossip cache, write-ahead log, tick | `Scores`, `Gossip`, `Wal`, `NodeSpec`, `TinyNode`, `NodeRuns`, `NodeLaws`, `SafeMode`, `NodeActions`, `DoubleSigning` |
| shared values | `Wrappers`, `Bytes`, `Protocol` |

Code that updates state is a class or a method with loops, and its contract equates the new state with a function of the old
one; the laws are lemmas about those functions and about whole runs of them. The node's runs are arbitrary lists of
ticks, each with any message, any clock readings and any sensor readings. The arena's runs are arbitrary lists of atomic
steps, so every interleaving of any number of threads is one of them; a task in such a list is an allocation still searching,
a reserved slot not yet written, or a live handle.

## Assumptions

- The transform works over exact reals. Its twiddles are a parameter with `w(2) = -1` and `w(2L)^2 = w(L)`, which is all
  that cosine and sine contribute; `TwiddlesExist` builds them from square roots. Magnitudes take a square root, any function
  with `sqrt(x) >= 0` and `sqrt(x)^2 = x` for `x >= 0`.
- The command encoding of the log reads back the commands a node writes, deltas of one byte and two conflict reports, and
  fits them in the 32-bit length field (`Wal.ReadsWritten`; `PlainCodecReads` gives an encoding that does), and appends
  succeed. Only the crash laws use this. A log that a run starts with reads back command by command (`Wal.Faithful`).
- The archiver behind the serial bridge reads back what it wrote (`Gateway.Deliverable`). Only the delivery law uses this.
- The two clock opcodes have an arm only with the feature `ptp`, which firmware/esp32/Cargo.toml:18 leaves out. Whether they
  have one is part of what a step observes (`StdStep.Clock`), so the laws hold for both builds; `StdRun.Built` names them.
- The script viewer is any function from bytes to a list of optional steps.

## Where the code differs from what is said of it

- The kept half of the spectrum determines the magnitude of every bin but the middle one (`DeterminedIff`). So a vibration
  at half the sampling rate, of any amplitude, trips nothing (`MiddleBinIsLost`, `FastestVibrationIsUnseen`).
- At the fixed sampling rate the high energy band is empty, so its energy is 0, the acoustic shutdown of 0x84 cannot fire,
  and 0x83 never trips on a conjunction with that band (`HighBandIsSilent`, `AcousticShutdownIsDead`,
  `NoRunReportsAcoustics`, `HighBandNeverTrips`). An assertion 0x80 can trip exactly when its limit is below 496 Hz and its
  threshold below full scale (`VibrationTripsIff`).
- The report says that fuel equal to the step count suffices for a script. It does exactly when no step but the last delays
  (`StepCountSufficesIff`). For bytecode it does, apart from clock timeouts (`InstructionCountSuffices`).
- The 32-bit current sum wraps, and a wrapped sum passes a program far over the limit (`WrapFoolsVerdict`); within a
  256-byte frame it cannot wrap (`VerifiedBytecodeOnNode`).
- The verifier accepts opcodes 0x82 and 0x85, which no executor arm handles, and without the clock 0x86 and 0x8B, which
  none handles then; the builder emits 0x85 (`VerifiedRunsAuthorized`, `VerifiedRunsByBuild`, `ArmlessFoolsVerdict`,
  `EnvelopeChecksNeverRun`, `EnvelopeFoolsVerdict`).
- The current estimate is the least sound one per opcode (`EstimateIsReached`), so a safe verdict is exact for programs whose
  opcodes all have arms (`SafeIff`). Code behind an opcode without an arm never runs and still counts, so the verdict on such
  a program is exact only if nothing behind it is estimated (`VerdictIsExactIff`, `DeadCodeCounts`).
- Without the clock the time is always 0, so no assertion expires. A node that has heard eight neighbours never hears
  another, and 0x87 counts frames of any age (`ClocklessCacheIsClosed`, `ClocklessWindowIsDead`).
- The 16-bit count wraps at 65536 handles on one slot, and the slot is then handed out again under its live handles
  (`WrapCorrupts`). The 16-bit index of a handle cannot name a slot past 65535, and such a handle reads another slot
  (`LastHandleIsAstray`). `BoundIsExact` says that nothing else goes wrong.
- A frame whose body exceeds 65535 bytes is written with a truncated length (`RoundTripIff`).
- Records appended behind a torn one are read from the wrong place on the next replay, and lost while they are shorter than
  what it misses (`TornTail`, `TornTailSwallows`).
- A frame behind noise on the serial line is found, alone and whole, exactly when the noise holds no DE AD pair (`NoiseIff`).
- The double-sign check compares with the last remembered command, whoever sent it (`CaughtIff`), so a sender that takes over
  the lead can be disqualified without having contradicted itself (`TakeoverIsPunished`); a sender that leads without
  interruption from a command of its own is only ever caught contradicting itself (`SteadyLeaderIsGuilty`), and so is any
  whose own command is the last remembered (`OwnCommandsConvict`).
- A caught sender stays out only while it is the last one caught (`CulpritStaysOut`). It leads again outside safe mode, with
  its next heartbeat, exactly when another was caught after it and the table has a place for it (`CulpritReturnsIff`,
  `HealIff`); `FormerCulpritLeads` is a run in which it does.
- The generated executor ends a missing step without its shutdown, so motors keep the last speed they were sent; every
  other trap stops all bound motors (`TrapStopsAll`, `OverflowLeaves`, `TrapRestsIff`, `MissingStepKeepsRunning`).

## Model

| member | source | states |
|---|---|---|
| Dft.DftSumIsEval | crates/tiny-io-oi/src/std_impl.rs:79-98 | the defining sum of bin k is the sample polynomial at w^k |
| Dft.SubAt | crates/tiny-io-oi/src/std_impl.rs:67-77 | block b at depth t transforms the samples at stride 2^t that start at the t-bit reversal of b |
| Dft.HalfTurn | crates/tiny-io-oi/src/std_impl.rs:80-93 | half way round, the running twiddle of each stage is -1 |
| Dft.Butterfly | crates/tiny-io-oi/src/std_impl.rs:88-93 | u + v and u - v turn the two half-block bins into the two bins of the joined block |
| Dft.FirstStage | crates/tiny-io-oi/src/std_impl.rs:67-77 | before the first stage each cell is the one-point transform of the sample at its bit-reversed place |
| Dft.LastStage | crates/tiny-io-oi/src/std_impl.rs:80-98 | after the last stage each cell is the defining sum of its bin |
| Fft.RevInvolution | crates/tiny-io-oi/src/std_impl.rs:68-74 | bit reversal undoes itself, so every slot is loaded exactly once |
| Fft.ReverseBits | crates/tiny-io-oi/src/std_impl.rs:69-74 | the shift loop computes the bit reversal, for any width |
| Fft.LoadReversed | crates/tiny-io-oi/src/std_impl.rs:64-77 | the load leaves in each cell the sample at the reversed index, in order and zero-padded |
| Fft.ButterflyBlock | crates/tiny-io-oi/src/std_impl.rs:86-96 | one block of one stage moves that block to the next stage and touches nothing else |
| Fft.ButterflyStage | crates/tiny-io-oi/src/std_impl.rs:81-96 | one stage moves every cell to the next stage |
| Fft.HeaplessFft | crates/tiny-io-oi/src/std_impl.rs:63-98 | for every input and power-of-two size, with x the samples in order and zeros behind them, each cell k ends as the sum over m of x[m] * w^(k*m) |
| Fft.DftIsLinear | crates/tiny-io-oi/src/std_impl.rs:79-98 | the transform of a sum is the sum of the transforms |
| Spectrum.ImpulseBin | crates/tiny-io-oi/src/std_impl.rs:63-98 | a single sample a at place m gives bin k the value a * w^(k*m) |
| Twiddles.TwiddlesExist | crates/tiny-io-oi/src/std_impl.rs:82-83 | the half-angle cosines and sines satisfy the twiddle assumption at every size |
| Spectrum.RealSpectrumIsSymmetric | crates/tiny-io-oi/src/std_impl.rs:100-103 | for real samples bin n-k is the conjugate of bin k, and has its magnitude |
| MiddleBin.ConstantIsDc | crates/tiny-io-oi/src/std_impl.rs:79-98 | a constant signal has nothing in any bin but those at multiples of its length |
| MiddleBin.MiddleBinIsLost | crates/tiny-io-oi/src/std_impl.rs:100-103 | at every size and amplitude the alternating signal has the same kept half as silence, all zero, and a middle bin of amplitude times size |
| MiddleBin.DeterminedIff | crates/tiny-io-oi/src/std_impl.rs:100-103 | the kept magnitudes determine the magnitude of a bin exactly when it is not the middle one |
| Spectrum.KeptMagnitudes | crates/tiny-io-oi/src/std_impl.rs:100-103 | the kept entries are the magnitudes of the first half of the bins |
| Spectrum.MagnitudeLaw | crates/tiny-io-oi/src/std_impl.rs:53-56 | a magnitude is the non-negative root of the sum of the squares of both parts |
| Spectrum.PeakBin | crates/tiny-io-oi/src/std_impl.rs:112-121 | the search finds the first largest entry outside DC, and its value |
| Spectrum.Hertz | crates/tiny-io-oi/src/std_impl.rs:123-131 | at 1000 Hz the frequency reported for bin k is the whole part of 125 k / 32 |
| Spectrum.Q15Law | crates/tiny-io-oi/src/std_impl.rs:127-128 | the amplitude is the whole part of 128 times the magnitude, up to 65535 |
| Spectrum.PeakIsGlobal | crates/tiny-io-oi/src/std_impl.rs:100-121 | the peak of the kept half is at least every bin but DC and the middle one |
| Spectrum.LocalFixedFft | crates/tiny-io-oi/src/std_impl.rs:107-131 | frequency in whole hertz and Q15 amplitude of the first strongest of bins 1..127, which is at least every bin of the whole spectrum but two |
| Spectrum.BandEnergies | crates/tiny-io-oi/src/std_impl.rs:134-157 | each energy is the saturated Q15 value of the sum of exactly the magnitudes whose frequency lies in its band |
| Spectrum.BandEdges | crates/tiny-io-oi/src/std_impl.rs:140-150 | which band each bin counts in, at any rate: the edges are at 100 and 1000 Hz, and bin 0 counts in none |
| Spectrum.BandsAt1000 | crates/tiny-io-oi/src/std_impl.rs:140-150 | at 1000 Hz the low band is bins 1 to 25 and the middle one all the others |
| Spectrum.BandsPartition | crates/tiny-io-oi/src/std_impl.rs:140-150 | the three band sums add up to the sum of all magnitudes outside DC |
| Spectrum.HighBandIsSilent | crates/tiny-io-oi/src/std_impl.rs:179-179 | at the constant rate of 1000 Hz the high band is empty and its energy is 0 |
| RangingFilter.BubblePass | crates/tiny-io-oi/src/std_impl.rs:502-508 | one pass settles one more cell, permutes the window and leaves the rest alone |
| RangingFilter.BubbleSort | crates/tiny-io-oi/src/std_impl.rs:500-509 | the passes leave a sorted permutation of the window |
| RangingFilter.MedianDecides | crates/tiny-io-oi/src/std_impl.rs:511-513 | the upper median exceeds t exactly when at least w - w/2 values do |
| RangingFilter.SpatialRanging | crates/tiny-io-oi/src/std_impl.rs:487-517 | 0x8C trips exactly when at least w - w/2 of the w readings exceed the threshold, for all samples and window sizes |
| RangingFilter.ReadingRange | crates/tiny-io-oi/src/std_impl.rs:495-498 | readings are 0..99 except for the one 16-bit sample without an absolute value |
| RangingFilter.ReadingDigits | crates/tiny-io-oi/src/std_impl.rs:495-498 | a reading is the absolute sample less whole hundreds |
| RangingFilter.Parameters | crates/tiny-io-oi/src/std_impl.rs:488-492 | the window is the low byte of its parameter, within 1..128; the threshold is the 16 bits read as signed |
| RangingFilter.PlainReadings | crates/tiny-io-oi/src/std_impl.rs:487-517 | on samples in 0..99 the step trips exactly when at least w - w/2 of the first w exceed the threshold |
| RangingFilter.ThresholdExtremes | crates/tiny-io-oi/src/std_impl.rs:490-516 | thresholds of 99 and more never trip, those below -68 always do |
| ArenaSteps.StepHolders | crates/tiny-io-oi/src/unsafe_core.rs:54-124 | how each atomic step changes the number of holders of each slot |
| ArenaSteps.CountedStep | crates/tiny-io-oi/src/unsafe_core.rs:54-124 | every step keeps each count equal to live handles plus reservations, modulo 65536 |
| ArenaSteps.SafeStep | crates/tiny-io-oi/src/unsafe_core.rs:99-139 | with at most 65536 slots and below 65536 holders no step shares a reserved slot or changes what a live handle reads |
| ArenaSteps.CountedRun | crates/tiny-io-oi/src/unsafe_core.rs:54-124 | counts track holders in every interleaving |
| ArenaSteps.SafeRun | crates/tiny-io-oi/src/unsafe_core.rs:54-139 | in every interleaving below the bound, a reserved slot has one holder and live handles read the value they were allocated with |
| ArenaSteps.NoLeak | crates/tiny-io-oi/src/unsafe_core.rs:67-73 | once nothing holds a slot every count is 0 |
| ArenaBound.BoundIsExact | crates/tiny-io-oi/src/unsafe_core.rs:54-139 | every run within a limit of holders per slot is safe if and only if the limit is below 65536 and there are at most 65536 slots, or the limit is 0 |
| ArenaBound.LastHandleIsAstray | crates/tiny-io-oi/src/unsafe_core.rs:119-139 | with more slots, 65537 allocations leave a handle that reads another slot's value |
| ArenaBound.WrapReserves | crates/tiny-io-oi/src/unsafe_core.rs:54-105 | the run of 65535 clones and one allocation that reserves a held slot |
| ArenaBound.WrapCorrupts | crates/tiny-io-oi/src/unsafe_core.rs:106-119 | one step later a live handle reads another allocation's value |
| Arena.Arena.Reserve | crates/tiny-io-oi/src/unsafe_core.rs:102-104 | the compare-exchange takes the slot exactly when its count is 0 |
| Arena.Arena.ProbeSlot | crates/tiny-io-oi/src/unsafe_core.rs:100-105 | one turn of the search loop is a Probe step and says whether it reserved |
| Arena.Arena.Fill | crates/tiny-io-oi/src/unsafe_core.rs:106-119 | writing the slot and returning the handle is a Publish step |
| Arena.Arena.CloneHandle | crates/tiny-io-oi/src/unsafe_core.rs:54-65 | cloning is a Clone step |
| Arena.Arena.DropHandle | crates/tiny-io-oi/src/unsafe_core.rs:67-73 | dropping is a Drop step |
| Arena.Arena.Get | crates/tiny-io-oi/src/unsafe_core.rs:126-139 | a handle reads through its 16-bit index; in a safe arena that is its own value |
| Arena.Arena.Alloc | crates/tiny-io-oi/src/unsafe_core.rs:99-124 | alone, allocation is Attempt: the first free slot with the value and one count, or no change when none is free |
| ArenaAlloc.FirstFreeFinds | crates/tiny-io-oi/src/unsafe_core.rs:100-123 | the search fails exactly when no slot is free, and uses up exactly one |
| ArenaAlloc.AllocationsSucceed | crates/tiny-io-oi/src/unsafe_core.rs:99-124 | of any number of allocations in a row exactly as many succeed as there are free slots |
| ArenaAlloc.ArenaIsReusable | crates/tiny-io-oi/src/unsafe_core.rs:54-124 | after any run that let everything go, allocations fill the slots again in order, each with its value, and only those beyond N fail |
| ArenaAlloc.AttemptIsRun | crates/tiny-io-oi/src/unsafe_core.rs:99-124 | an undisturbed allocation is a run of the atomic steps, and keeps to any bound of at least one holder |
| ArenaAlloc.AttemptsAreRun | crates/tiny-io-oi/src/unsafe_core.rs:99-124 | so is any number of them in a row |
| Framing.ScanAppend | crates/tiny-io-oi-host/src/gateway.rs:28-51 | scanning a stream in two parts, carrying the leftover over, is scanning it whole |
| Framing.ScanOneByte | crates/tiny-io-oi-host/src/gateway.rs:31-50 | after one more byte at most one action is due: emit the completed frame or drop one byte |
| Framing.ScanEncoded | crates/tiny-io-oi-host/src/gateway.rs:65-73 | encoded frames come back in order with nothing left |
| Framing.RoundTripIff | crates/tiny-io-oi-tools/src/bin/verify_geopin.rs:10-15 | a frame survives exactly when its body is shorter than 65536 bytes |
| Framing.ScanAfterNoise | crates/tiny-io-oi-host/src/gateway.rs:46-49 | leading bytes without an adjacent DE AD are skipped and lose no frame |
| Framing.NoiseIff | crates/tiny-io-oi-host/src/gateway.rs:33-49 | behind noise a frame is found, with nothing else and nothing left, exactly when the noise holds no DE AD pair |
| Framing.MagicNoiseSwallows | crates/tiny-io-oi-host/src/gateway.rs:33-45 | noise with DE AD can swallow a whole frame |
| Framing.PacketBytes | crates/tiny-io-oi-host/src/gateway.rs:65-73 | a packet is DE, AD, the high and the low byte of the low 16 bits of the length, and the body |
| Framing.WireFrameIff | crates/tiny-io-oi-host/src/gateway.rs:31-50 | a frame in those bytes, from anybody, is found; behind noise exactly when the noise holds no DE AD pair |
| Gateway.GatewayBridge.Feed | crates/tiny-io-oi-host/src/gateway.rs:29-50 | the loop body takes the parser to the scan of buffer and byte, and forwards each completed frame |
| Gateway.GatewayBridge.Tick | crates/tiny-io-oi-host/src/gateway.rs:26-76 | a tick absorbs every waiting byte and writes exactly one packet for a network message |
| Gateway.GatewayBridge.WritePacket | crates/tiny-io-oi-host/src/gateway.rs:53-75 | one network message is written as the encoded archive of its frame, or not at all |
| Gateway.AbsorbAppend | crates/tiny-io-oi-host/src/gateway.rs:28-51 | absorbing two chunks is absorbing their concatenation |
| Gateway.SplitIndependence | crates/tiny-io-oi-host/src/gateway.rs:26-51 | any split of a stream into ticks gives the frames and leftover of one whole scan |
| Gateway.LinkDelivers | crates/tiny-io-oi-host/src/gateway.rs:26-76 | what one bridge writes another re-broadcasts whole and in order, after any magic-free noise and under any split |
| Gateway.ArrivalForwards | crates/tiny-io-oi-host/src/gateway.rs:33-45 | a frame that arrives whole is broadcast under the kind its first payload byte names, with the rest as payload |
| Gateway.DepartureBytes | crates/tiny-io-oi-host/src/gateway.rs:53-75 | a message is written as header, length and the archive of its sender, kind byte and payload |
| Gateway.AwaitException | crates/tiny-io-oi-tools/src/bin/verify_geopin.rs:64-102 | the listening loop reports an exception exactly when some frame of the stream is one |
| Gateway.ExceptionByte | crates/tiny-io-oi-tools/src/bin/verify_geopin.rs:78-90 | an exception is a frame whose payload starts with FF |
| Protocol.WireBytes | crates/tiny-io-oi/src/lib.rs:28-55 | the byte of each message kind, and that all other bytes count as heartbeats |
| Bytes.LowestFirst | crates/tiny-io-oi/src/vm.rs:109-115 | packed numbers are read lowest byte first |
| Bytes.WrittenLowestFirst | crates/tiny-io-oi/src/std_impl.rs:332-335 | and written so |
| Vm.MicroVm.Run | crates/tiny-io-oi/src/vm.rs:35-84 | fuel, result, trap reason and motor history after a script are those of Exec |
| Vm.FuelLaw | crates/tiny-io-oi/src/vm.rs:44-64 | any run ends in OutOfFuel exactly when it starts with less fuel than it takes to begin the last step it can reach |
| Vm.CompletesIff | crates/tiny-io-oi/src/vm.rs:44-64 | a script with no other trap completes exactly when it is empty or its fuel is at least 1 plus the cost of all steps but the last |
| Vm.FuelAccounts | crates/tiny-io-oi/src/vm.rs:44-64 | in every run, trapped or not, commands never exceed steps begun, and steps begun plus leftover never exceed the initial fuel; a completed run has begun every step, and its leftover is the fuel less its total cost, or 0 |
| Vm.StepCountSufficesIff | crates/tiny-io-oi/src/verifier/mod.rs:36-39 | fuel equal to the step count suffices exactly when no step but the last delays |
| Vm.SingleStep | crates/tiny-io-oi/src/vm.rs:50-82 | what one step alone does: channels below 8 and pins below 32 are allowed, a failed assertion reports pin, expected and actual |
| Vm.DelayThenDrive | crates/tiny-io-oi/src/vm.rs:44-64 | a delay burns its ticks and one more |
| Vm.MicroVm.RunInstr | crates/tiny-io-oi/src/vm.rs:95-118 | one turn of the bytecode loop burns one fuel and has the result of its instruction, or runs dry |
| Vm.MicroVm.RunStd | crates/tiny-io-oi/src/vm.rs:87-120 | fuel, result, trap reason, broadcasts and motor history after bytecode are those of ExecStd |
| StdStep.ExecuteStep | crates/tiny-io-oi/src/std_impl.rs:165-522 | given what a step senses, and whether the clock arms are there, its opcode's error, motor command and broadcast are those of StepSpec |
| StdStep.BandsTrip | crates/tiny-io-oi/src/std_impl.rs:234-249 | the counting AND means all selected bands and at least one, OR means some selected band |
| StdStep.AverageOf | crates/tiny-io-oi/src/std_impl.rs:428-432 | the loop averages the samples, rounding toward zero |
| StdStep.GossipRoundTrip | crates/tiny-io-oi/src/std_impl.rs:329-336 | the broadcast assertion reads back as the sender, time and score it was made from |
| StdStep.ConsensusIff | crates/tiny-io-oi/src/std_impl.rs:326-364 | 0x87 raises its hazard exactly when local energy exceeds the threshold and at least K distinct others confirm |
| StdStep.PidLaw | crates/tiny-io-oi/src/std_impl.rs:434-440 | the commanded speed is 0 below 100 units of scaled error, 255 from 25500 on, and in between a hundredth of it |
| StdStep.PidOpposes | crates/tiny-io-oi/src/std_impl.rs:427-440 | a higher reading never commands more speed |
| StepLaws.VibrationLaw | crates/tiny-io-oi/src/std_impl.rs:182-201 | a built 0x80 stops and reports frequency and amplitude exactly when both exceed their limits |
| StepLaws.PeakHertz | crates/tiny-io-oi/src/std_impl.rs:123-131 | the frequency a step senses is 125 k / 32 for the strongest bin k |
| StepLaws.PeakAmplitude | crates/tiny-io-oi/src/std_impl.rs:127-128 | and the amplitude is 128 times its magnitude, up to 65535 |
| StepLaws.ResonanceLaw | crates/tiny-io-oi/src/std_impl.rs:206-218 | a built 0x81 commands 110 exactly when the strongest bin lies within the tolerance of the resonance |
| StepLaws.MultiBandLaw | crates/tiny-io-oi/src/std_impl.rs:223-255 | a built 0x83 stops exactly when all selected bands, of at least one, or under OR some selected band, exceed their thresholds |
| StepLaws.AdaptiveLaw | crates/tiny-io-oi/src/std_impl.rs:260-284 | on the energies of a spectrum a built 0x84 commands 115 from the middle band, else 70 from the low one, else nothing |
| StepLaws.AcousticArm | crates/tiny-io-oi/src/std_impl.rs:273-276 | its shutdown asks for a high energy of more than 32768 |
| StepLaws.EnergiesLaw | crates/tiny-io-oi/src/std_impl.rs:134-157 | those energies are the Q15 sums of bins 1 to 25 and of bins 26 to 127, and 0 |
| StepLaws.ConsensusLaw | crates/tiny-io-oi/src/std_impl.rs:309-371 | a built 0x87 broadcasts when local energy exceeds its threshold, and stops exactly when K others have a high enough assertion no older than the window |
| StepLaws.PlainOpcodes | crates/tiny-io-oi/src/std_impl.rs:377-475 | 0x88 fades to the low byte of its parameter, 0x89 stops on a tilt, the clock opcodes wait |
| StepLaws.ControlLaw | crates/tiny-io-oi/src/std_impl.rs:412-446 | 0x8A commands a hundredth of gain times error within 0..255, and reports a hazard beyond 10000 units either way |
| StepLaws.RangingLaw | crates/tiny-io-oi/src/std_impl.rs:487-517 | 0x8C on readings in 0..99 stops exactly when at least w - w/2 of them exceed the threshold |
| Sensors.Observe | crates/tiny-io-oi/src/std_impl.rs:175-192 | peak and energies of a step are those of the spectrum of its samples |
| Sensors.SenseAndExecute | crates/tiny-io-oi/src/std_impl.rs:165-522 | a step from samples to motor command decides by StepSpec on the spectrum of its samples |
| Sensors.AcousticShutdownIsDead | crates/tiny-io-oi/src/std_impl.rs:263-276 | whatever the magnitudes, 0x84 never reports an acoustic failure |
| Sensors.NoRunReportsAcoustics | crates/tiny-io-oi/src/std_impl.rs:263-276 | no run of any bytecode does |
| Sensors.HighBandNeverTrips | crates/tiny-io-oi/src/std_impl.rs:219-249 | with the high band selected, 0x83 never trips under AND, and under OR the other two bands decide alone |
| Sensors.AmplitudeCovers | crates/tiny-io-oi/src/std_impl.rs:112-131 | the amplitude compared by 0x80 is at least that of every bin but DC and the middle one |
| Sensors.FrequencyLimitIsDead | crates/tiny-io-oi/src/std_impl.rs:188-200 | a frequency limit of 496 Hz or more is never exceeded |
| Sensors.VibrationTripsIff | crates/tiny-io-oi/src/std_impl.rs:185-200 | some spectrum trips 0x80 exactly when its limit is below 496 Hz and its threshold below 65535 |
| Sensors.FastestVibrationIsUnseen | crates/tiny-io-oi/src/std_impl.rs:100-157 | a vibration at half the sampling rate, of any amplitude, moves none of 0x80, 0x83, 0x84, 0x87, whatever their thresholds |
| StdRun.StdFuelLaw | crates/tiny-io-oi/src/vm.rs:95-100 | the loop runs dry exactly when fuel is less than the instructions it would begin, and each instruction begun burns one |
| StdRun.InstructionCountSuffices | crates/tiny-io-oi/src/verifier/mod.rs:141-144 | with fuel for every instruction OutOfFuel can only come from a clock opcode that timed out |
| BoundNode.Node.Shutdown | crates/tiny-io-oi-macros/src/lib.rs:71-79 | the shutdown statements set every bound field to 0 |
| BoundNode.Node.CheckPin | crates/tiny-io-oi-macros/src/lib.rs:101-126 | every field bound to the pin is checked in order, and a pin without bindings is refused |
| BoundNode.RouteIsFirst | crates/tiny-io-oi-macros/src/lib.rs:82-99 | a channel drives the field of its first binding |
| BoundNode.PinErrorIff | crates/tiny-io-oi-macros/src/lib.rs:101-126 | a pin check passes exactly when the pin is bound and every bound field agrees; the first that does not is reported |
| BoundNode.Node.RunVmScript | crates/tiny-io-oi-macros/src/lib.rs:143-178 | result, fuel and field speeds are those of BoundExec |
| BoundNode.TrapStopsAll | crates/tiny-io-oi-macros/src/lib.rs:70-158 | every trap but BufferOverflow leaves every bound field at 0 |
| BoundNode.OverflowLeaves | crates/tiny-io-oi-macros/src/lib.rs:151-157 | a run that ends at a missing step leaves each field at the last speed sent before it, or its old one |
| BoundNode.TrapRestsIff | crates/tiny-io-oi-macros/src/lib.rs:70-158 | a trapped run leaves all bound fields at 0 exactly when it did not end at a missing step, or all those speeds are 0 |
| BoundNode.MissingStepKeepsRunning | crates/tiny-io-oi-macros/src/lib.rs:151-157 | for every bound channel and speed there is a trapped run that leaves the motor at that speed |
| BoundNode.ExecutorsAgree | crates/tiny-io-oi-macros/src/lib.rs:143-178 | on scripts that name only bound channels and pins both executors end with the same result and fuel |
| BoundNode.CompletesIff | crates/tiny-io-oi-macros/src/lib.rs:82-126 | the generated executor completes exactly when the micro VM does and all names are bound; each field then holds the last speed sent to it |
| Verifier.BoundaryCheck | crates/tiny-io-oi/src/verifier/mod.rs:148-226 | the loop clears the program exactly when no instruction is flagged, and counts the violations |
| Verifier.CurrentDraw | crates/tiny-io-oi/src/verifier/mod.rs:236-268 | the loop computes the wrapped sum and the peak of the per-opcode estimates |
| Verifier.VerifyStdBytecode | crates/tiny-io-oi/src/verifier/mod.rs:114-288 | safe exactly when aligned, unflagged and within the limit, with the counters behind it |
| Verifier.CountersDecide | crates/tiny-io-oi/src/verifier/mod.rs:228-232 | both counters are 0 exactly when no instruction is flagged |
| Estimates.CountersCount | crates/tiny-io-oi/src/verifier/mod.rs:165-222 | the counters are the number of bad pins plus that of bad channels, and the number of bad opcodes |
| Estimates.PeakIsReached | crates/tiny-io-oi/src/verifier/mod.rs:262-266 | the peak is the estimate of one of the instructions, or 0 |
| Verifier.StepWithinEstimate | crates/tiny-io-oi/src/verifier/mod.rs:243-266 | whatever a step senses, its commands stay within its opcode's estimate |
| Verifier.RunWithinEstimate | crates/tiny-io-oi/src/verifier/mod.rs:239-268 | the commands of every run, trapped or not, stay within the unwrapped total and the peak |
| Verifier.CurrentIsBounded | crates/tiny-io-oi/src/verifier/mod.rs:274-279 | a safe verdict with an unwrapped sum bounds total and peak speed of every run, for all sensors, gossip and fuel |
| Estimates.EstimateIsReached | crates/tiny-io-oi/src/verifier/mod.rs:243-252 | every opcode with an arm can command exactly its estimate, 110, 115, 255 or nothing, without an error |
| Estimates.LeastBound | crates/tiny-io-oi/src/verifier/mod.rs:234-268 | no choice of operands and readings for the opcodes of a program commands more than a limit exactly when the estimates of the instructions it can reach sum to at most that |
| Estimates.SafeIff | crates/tiny-io-oi/src/verifier/mod.rs:274-279 | an aligned, unflagged program with an unwrapped sum and arms for all its opcodes is safe exactly when no such choice commands more than the limit |
| Estimates.VerdictIsExactIff | crates/tiny-io-oi/src/verifier/mod.rs:274-279 | with opcodes without an arm, the verdict is exact for every limit exactly when nothing behind the first of them is estimated |
| Estimates.DeadCodeCounts | crates/tiny-io-oi/src/verifier/mod.rs:239-268 | a program that commands nothing and is refused at every limit below 255 |
| Estimates.MisalignedIsUnsafe | crates/tiny-io-oi/src/verifier/mod.rs:123-139 | bytecode that is not a whole number of instructions is never safe |
| Verifier.ComparisonIsExactIff | crates/tiny-io-oi/src/verifier/mod.rs:274-279 | the comparison is right for every limit exactly when the sum did not wrap |
| Verifier.WrapFoolsVerdict | crates/tiny-io-oi/src/verifier/mod.rs:254-279 | a program passed at limit 254 whose run commands 4294967550 |
| Verifier.FlaggedIffRefused | crates/tiny-io-oi/src/verifier/mod.rs:165-222 | an instruction is flagged, or has no executor arm in this build, exactly when it is refused whatever else it senses, before any command |
| Verifier.RunStopsAtFlag | crates/tiny-io-oi/src/verifier/mod.rs:154-226 | no run gets past a flagged or armless instruction, a run without error gets to the end, and a boundary error names the instruction to blame; an invalid opcode is reported exactly when one is reached with fuel |
| Verifier.VerifiedRunsAuthorized | crates/tiny-io-oi/src/verifier/mod.rs:154-226 | verified bytecode is never refused access, and reports an invalid opcode exactly when it reaches one without an arm |
| Verifier.VerifiedRunsByBuild | crates/tiny-io-oi/src/std_impl.rs:288-289 | that can only be 0x82 or 0x85, and without the clock 0x86 or 0x8B too; without the clock verified bytecode with fuel for its instructions never runs dry |
| Verifier.ArmlessFoolsVerdict | crates/tiny-io-oi/src/verifier/mod.rs:165-172 | each of these opcodes, alone, is passed at every limit and refused by every run |
| Verifier.VerifyVmScript | crates/tiny-io-oi/src/verifier/mod.rs:15-111 | safe exactly when no step is out of range and the wrapped speed sum is within the limit, with the counters behind it |
| Verifier.ScriptFlaggedIff | crates/tiny-io-oi/src/verifier/mod.rs:42-82 | a step is flagged exactly when, run alone, it is refused |
| Verifier.ScriptCounters | crates/tiny-io-oi/src/verifier/mod.rs:42-82 | the violations are the number of flagged steps |
| Verifier.PeakIsSpeed | crates/tiny-io-oi/src/verifier/mod.rs:83-91 | the peak is one of the speeds, or 0 |
| Verifier.RunIsPrefix | crates/tiny-io-oi/src/verifier/mod.rs:83-91 | a run commands a prefix of the script's speeds, all of them when it completes |
| Verifier.ScriptRunsAuthorized | crates/tiny-io-oi/src/verifier/mod.rs:42-82 | a verified script is never refused access, whatever its sum |
| Verifier.ScriptVerdictIsSound | crates/tiny-io-oi/src/verifier/mod.rs:83-102 | it stays within limit and peak, when the sum did not wrap |
| Estimates.ScriptSafeIff | crates/tiny-io-oi/src/verifier/mod.rs:42-102 | a script with an unwrapped sum is safe exactly when no step alone is refused and no run commands more than the limit |
| ScriptBuilder.TinyScriptBuilder.Add | bun/index.ts:218-243 | a call appends exactly its packed instruction, or nothing when the buffer is full |
| ScriptBuilder.ProgramSnoc | bun/index.ts:235-241 | the appended bytes decode to the instruction and leave earlier instructions alone |
| ScriptBuilder.FieldsRecovered | bun/index.ts:249-372 | every pin, channel, mask, frequency, window and threshold comes back out of the packed words as its low bits |
| StepLaws.InstrBytes | crates/tiny-io-oi/src/vm.rs:101-115 | an instruction is opcode, pin and two numbers, lowest byte first |
| StepLaws.VibrationBytes | bun/index.ts:231-243 | the 8 bytes of a 0x80 call |
| StepLaws.ResonanceBytes | bun/index.ts:249-268 | the 8 bytes of a 0x81 call |
| StepLaws.MultiBandBytes | bun/index.ts:275-298 | the 8 bytes of a 0x83 call |
| StepLaws.AdaptiveBytes | bun/index.ts:305-325 | the 8 bytes of a 0x84 call |
| StepLaws.ConsensusBytes | bun/index.ts:349-372 | the 8 bytes of a 0x87 call |
| ScriptBuilder.BuiltFlagged | bun/index.ts:231-372 | the verifier flags a built instruction exactly when the low byte of its pin or channel is out of range |
| ScriptBuilder.EnvelopeChecksNeverRun | bun/index.ts:331-341 | no run of a program gets past a built envelope check, and none that holds one completes |
| ScriptBuilder.EnvelopeFoolsVerdict | bun/index.ts:331-341 | yet the verifier passes one at every limit |
| Gossip.CountConfirming | crates/tiny-io-oi/src/std_impl.rs:342-353 | the list counts the distinct confirming senders, exactly up to 8 |
| Gossip.ConfirmingFits | crates/tiny-io-oi/src/std_impl.rs:342-353 | a list of at most 8 assertions has at most 8 confirming senders |
| Gossip.ConfirmingMembers | crates/tiny-io-oi/src/std_impl.rs:345-352 | a sender confirms exactly when it is another node with an assertion inside the window and of at least the score |
| Gossip.HeardMembers | crates/tiny-io-oi/src/node.rs:200-217 | a heard frame replaces its sender's, or is added while there are fewer than 8; all the others stay |
| Gossip.AssertionBytes | crates/tiny-io-oi/src/node.rs:188-198 | an assertion is at least 16 bytes: sender, time and score, the numbers lowest byte first |
| Gossip.PrunedMembers | crates/tiny-io-oi/src/node.rs:133-137 | pruning keeps exactly the entries no older than five seconds |
| Gossip.PruneRefines | crates/tiny-io-oi/src/node.rs:133-137 | pruning at a later time leaves exactly the live last frames that found room |
| Gossip.HeardRefines | crates/tiny-io-oi/src/node.rs:188-218 | a heard frame keeps the cache equal to the last frame of each sender, less the expired and those without room |
| Gossip.CacheConfirms | crates/tiny-io-oi/src/std_impl.rs:342-353 | with a window inside the five seconds, the senders that confirm in the cache are those that confirm by their last frames, less those without room |
| Wal.RecoverFromWal | crates/tiny-io-oi/src/node.rs:96-127 | the loop applies the deltas of the recoverable records, in order |
| Wal.WholeLogRecovers | crates/tiny-io-oi/src/node.rs:96-127 | a whole log recovers every delta, whatever follows it, and conflict records recover none |
| Wal.RecordBytes | crates/tiny-io-oi/src/node.rs:104-112 | a record is its length in four bytes, lowest first, and the encoded command |
| Wal.WireRecord | crates/tiny-io-oi/src/node.rs:100-112 | what replay makes of any four length bytes and what follows |
| Wal.AppliedDelta | crates/tiny-io-oi/src/node.rs:113-121 | replay applies the low byte of the delta of any insertion that has one |
| Wal.WrittenCommands | crates/tiny-io-oi/src/node.rs:84-92 | the commands written: entity 1 with a byte, entity 999 with one of two reasons |
| Wal.PlainCodecReads | crates/tiny-io-oi/src/node.rs:84-92 | there is an encoding under which all that a node writes reads back |
| Wal.CutRecordRecoversNothing | crates/tiny-io-oi/src/node.rs:101-110 | a record cut at any byte recovers nothing |
| Wal.SurvivorsFit | crates/tiny-io-oi/src/node.rs:100-112 | the surviving records are the longest prefix that fits in the remaining bytes |
| Wal.CutRecovers | crates/tiny-io-oi/src/node.rs:96-127 | a log cut at any byte recovers exactly the deltas of the records that survived whole |
| Wal.TornTail | crates/tiny-io-oi/src/node.rs:100-112 | exactly what replay gives for any bytes behind a record torn at any byte: the torn record swallows what it misses, a torn header is completed by the first of them |
| Wal.TornTailSwallows | crates/tiny-io-oi/src/node.rs:104-112 | all that is appended is lost while it is shorter than what the torn record misses |
| Scores.BestIsMaximum | crates/tiny-io-oi/src/node.rs:403-408 | the leader's entry is in the table and no score exceeds it |
| Scores.DecayTracks | crates/tiny-io-oi/src/node.rs:365-376 | decay keeps every score equal to 100 less the ticks since its sender's last stored heartbeat |
| Scores.HeartbeatTracks | crates/tiny-io-oi/src/node.rs:384-401 | a stored heartbeat keeps ids unique and scores in step with the clock |
| Scores.ScoresDistinct | crates/tiny-io-oi/src/node.rs:365-401 | scores lie in 1..100 and no two senders share one |
| Scores.LeaderIsMostRecent | crates/tiny-io-oi/src/node.rs:403-408 | the leader is the sender whose stored heartbeat is the most recent; there is one exactly while some sender is fresh |
| Scores.DecayKeepsLeader | crates/tiny-io-oi/src/node.rs:365-376 | decay never changes who leads, and ends the lead exactly at score 1 |
| TinyNode.TinyNode.EnterSafe | crates/tiny-io-oi/src/node.rs:74-94 | safe mode, a stopped motor and a conflict record, and nothing else |
| TinyNode.TinyNode.Recover | crates/tiny-io-oi/src/node.rs:96-127 | recovery replays the log on the state and changes nothing else |
| TinyNode.TinyNode.DecayScores | crates/tiny-io-oi/src/node.rs:365-376 | the two loops are Decay |
| TinyNode.TinyNode.UpdateScore | crates/tiny-io-oi/src/node.rs:384-401 | the score goes to the sender's own entry, else to the first empty slot, else nowhere |
| TinyNode.TinyNode.GetLeader | crates/tiny-io-oi/src/node.rs:403-408 | the loop finds the last of the highest entries |
| TinyNode.TinyNode.PruneGossip | crates/tiny-io-oi/src/node.rs:133-137 | retaining is Pruned |
| TinyNode.TinyNode.HearGossip | crates/tiny-io-oi/src/node.rs:200-217 | a frame refreshes its sender's entry, or takes a free place, or is dropped |
| TinyNode.TinyNode.RunStdProgram | crates/tiny-io-oi/src/node.rs:318-353 | running bytecode is RunStdOn: on any error the motor is stopped and reported |
| TinyNode.TinyNode.RunScriptProgram | crates/tiny-io-oi/src/node.rs:248-316 | running a script is RunScriptOn, with the fallback to bytecode |
| TinyNode.TinyNode.Handle | crates/tiny-io-oi/src/node.rs:176-356 | the dispatch on the opcode is Dispatch |
| TinyNode.TinyNode.ReceiveMessage | crates/tiny-io-oi/src/node.rs:147-362 | the message half of a tick, with its two early returns, is Receive |
| TinyNode.TinyNode.Tick | crates/tiny-io-oi/src/node.rs:130-363 | a tick takes the object's whole state one step of Tick |
| NodeRuns.NodeStep | crates/tiny-io-oi/src/node.rs:130-363 | every tick keeps scores in step with the clock, leadership known, safe mode at standstill, the disqualified sender out of the lead and the cache distinct and bounded |
| NodeRuns.ReachableOk | crates/tiny-io-oi/src/node.rs:52-67 | all of that holds after any run of ticks from new |
| NodeLaws.LeaderLaw | crates/tiny-io-oi/src/node.rs:149-186 | in every state a new node reaches the disqualified sender does not lead outside safe mode, leader_active holds exactly when a leader exists and some sender is fresh, and the leader is the sender whose stored heartbeat is the most recent |
| NodeLaws.DeadMan | crates/tiny-io-oi/src/node.rs:139-144 | without heartbeats the leader stays for exactly the ticks of its score, then there is none, the node is safe and the motor stands still |
| NodeLaws.HundredSilentTicks | crates/tiny-io-oi/src/node.rs:139-144 | a hundred ticks without a heartbeat always end so |
| NodeActions.LeadLastsHundred | crates/tiny-io-oi/src/node.rs:176-186 | a heartbeat that finds a place leads for 99 silent ticks, and the hundredth ends the lead and stops the node |
| NodeActions.AgeLaw | crates/tiny-io-oi/src/node.rs:130-145 | every tick first ages scores and cache, and when that ends the last lead enters safe mode, stops the motor and logs heartbeat_decay under entity 999 |
| NodeActions.AcceptedIff | crates/tiny-io-oi/src/node.rs:147-174 | a message is acted on unless its sender is disqualified, or leads and contradicts the remembered payload of one of the three remembered kinds |
| NodeActions.RememberedIff | crates/tiny-io-oi/src/node.rs:158-174 | only StateUpdate, VmScriptDispatch and TaskDispatch from the leader are remembered |
| NodeActions.InactionLaw | crates/tiny-io-oi/src/node.rs:147-170 | without a message, or with a disqualified sender's, nothing more happens; a contradiction disqualifies, stops, and logs double_sign under entity 999 |
| NodeActions.ActionLaw | crates/tiny-io-oi/src/node.rs:219-247 | a task commands 255, a state update applies its first byte and logs it under entity 1, neither in safe mode; other kinds touch neither motor nor state nor log |
| NodeActions.TableLaw | crates/tiny-io-oi/src/node.rs:176-218 | a heartbeat stores 100 for its sender, and an assertion of at least 16 bytes goes to the cache |
| NodeActions.BytecodeLaw | crates/tiny-io-oi/src/node.rs:318-353 | dispatched bytecode runs with 100 units of fuel; an error stops the motor and is broadcast under its code |
| NodeActions.ScriptLaw | crates/tiny-io-oi/src/node.rs:248-316 | a dispatched script runs with 100 units of fuel, reports its errors, and falls back to bytecode on a missing step |
| NodeLaws.ExceptionIffTrap | crates/tiny-io-oi/src/node.rs:248-353 | a tick broadcasts an exception exactly when its program trapped, also after the fallback, and then ends with the motor stopped |
| NodeLaws.OneCommandPerTick | crates/tiny-io-oi/src/node.rs:220-247 | a tick logs at most one command, and neither applies nor logs a delta in safe mode |
| NodeLaws.TickEffects | crates/tiny-io-oi/src/node.rs:225-246 | log and state change together, by that command alone |
| NodeLaws.LogRun | crates/tiny-io-oi/src/node.rs:84-92 | after any run the log is the commands logged and the state is their replay |
| NodeLaws.RunWrites | crates/tiny-io-oi/src/node.rs:84-92 | a run logs nothing but one-byte deltas and the two conflict reports |
| NodeLaws.CrashSafe | crates/tiny-io-oi/src/node.rs:96-127 | after any run and any cut of the log, recovery applies exactly the deltas that survived whole; uncut it gives the state |
| NodeLaws.CrashGoesBack | crates/tiny-io-oi/src/node.rs:96-127 | a cut log recovers a state that the node had earlier in the run, one whose whole log survived |
| NodeLaws.CrashSafeFromNew | crates/tiny-io-oi/src/node.rs:52-127 | for every run of a new node with an empty log and every cut, recovery gives a state of that run; uncut, the last |
| NodeLaws.CrashWithinTick | crates/tiny-io-oi/src/node.rs:225-246 | a crash within a tick recovers to the state just before or just after its update |
| NodeLaws.RestartIsInStep | crates/tiny-io-oi/src/node.rs:69-72 | a new node on an empty log, and one recovered from a whole log, satisfy the premise of the crash laws |
| NodeLaws.CacheRun | crates/tiny-io-oi/src/node.rs:188-218 | under a clock that does not go back the cache refines the last frame of each sender in every run |
| NodeLaws.CacheLaw | crates/tiny-io-oi/src/node.rs:133-137 | right after pruning the cache is exactly the live last frames that were not turned away |
| NodeLaws.ConsensusOverRun | crates/tiny-io-oi/src/node.rs:320-327 | in any tick after any run of a new node, 0x87 decides on the last frames of all senders ever heard, less those turned away |
| NodeLaws.ClocklessCacheIsClosed | crates/tiny-io-oi/src/node.rs:29-31 | without the clock, a node that has heard eight neighbours never hears another |
| NodeLaws.ClocklessWindowIsDead | crates/tiny-io-oi/src/node.rs:29-31 | without the clock, the window of 0x87 makes no difference |
| NodeLaws.VerifiedBytecodeOnNode | crates/tiny-io-oi/src/node.rs:318-353 | verified bytecode in a 256-byte frame is never refused access, never runs dry but for a clock that timed out, and commands at most the limit |
| DoubleSigning.AuthoredRun | crates/tiny-io-oi/src/node.rs:158-174 | in every run the node keeps kind and payload of the last command its leader of the time sent |
| DoubleSigning.CaughtIff | crates/tiny-io-oi/src/node.rs:158-170 | a leader's message is caught exactly when it is of one of the three kinds and contradicts the remembered command; the tick then disqualifies its sender, in safe mode and at standstill |
| DoubleSigning.ContradictionIsCaught | crates/tiny-io-oi/src/node.rs:158-170 | a leader that sends two payloads of the same kind, any of the three, ends disqualified, in safe mode and at standstill |
| DoubleSigning.OtherKindsPass | crates/tiny-io-oi/src/node.rs:160-174 | no other kind is ever caught or remembered |
| SafeMode.OnlyCatchesDisqualify | crates/tiny-io-oi/src/node.rs:164-168 | nothing but a catch changes who is disqualified |
| SafeMode.SafeModeIff | crates/tiny-io-oi/src/node.rs:139-186 | exactly when a tick ends in safe mode: after a catch, or in it or falling into it without a processed heartbeat that leaves a leader not disqualified |
| SafeMode.HealIff | crates/tiny-io-oi/src/node.rs:147-186 | a sender's heartbeat makes it lead outside safe mode exactly when it is not disqualified and the table has a place for it |
| DoubleSigning.OwnCommandsConvict | crates/tiny-io-oi/src/node.rs:158-170 | a sender is caught contradicting itself whenever no other sender's command was remembered since one of its own |
| DoubleSigning.SteadyLeaderIsGuilty | crates/tiny-io-oi/src/node.rs:158-170 | a sender that leads without interruption from its own command until it is caught has contradicted itself |
| DoubleSigning.LastIsDisqualified | crates/tiny-io-oi/src/node.rs:164-168 | after any run the disqualified sender is the one caught last |
| DoubleSigning.CulpritStaysOut | crates/tiny-io-oi/src/node.rs:147-186 | while nobody else is caught after it, a disqualified sender does not lead outside safe mode |
| DoubleSigning.CulpritReturnsIff | crates/tiny-io-oi/src/node.rs:147-186 | after any run, the heartbeat of a sender disqualified before it makes it lead outside safe mode exactly when another was the last caught and the table has a place |
| DoubleSigning.TakeoverIsPunished | crates/tiny-io-oi/src/node.rs:162-170 | a run of four ticks that disqualifies a sender for contradicting its predecessor |
| DoubleSigning.FormerCulpritLeads | crates/tiny-io-oi/src/node.rs:147-186 | a run of six ticks after which a sender caught earlier leads outside safe mode |

## Left out

- HeaplessFft: no floating-point rounding and no Q15 saturation of the samples; the arithmetic is exact.
- ExecuteStep: the tilt filter of 0x89 and the clock loops of 0x86 and 0x8B are reduced to their verdicts; what they compute is not modelled.
- SenseAndExecute: takes the same two verdicts; the spectra it computes.
- SpatialRanging: the one sample without an absolute value follows an optimised build; a checked build stops there.
- CurrentIsBounded: assumes that the 32-bit sum did not wrap, because the claim is false when it does (see WrapFoolsVerdict); a checked build stops there.
- RecoverFromWal: the command encoding is a parameter, and position arithmetic does not overflow a 32-bit index.
- Get: a read happens while its handle is held; the reference the source returns may outlive the handle.
- `TinyArc::new` and `TinyArc::from_raw` called by hand, outside allocation.
- The archiver, the script viewer and the framing decoder of other crates: parameters or not part of this model.
- The report texts of the verifier.
- `check_and_heal`, the hardware router, the flash file system, the mock drivers, the time synchronisation formulas.
- The foreign-function layer, the firmware, the serial tools' I/O, the web interface, the linters and the optimiser mock.
- Scaling of builder thresholds from floating point.
- The distributed consensus design, which has no code in this repository.
