# UART core and testbench: a verified model

This project models, in Dafny, the UART core that ships as a template of the repository, the testbench around
it and the vector codec of the VPI library underneath, and proves what they are for. Everything is checked by
`dafny verify dfyconfig.toml`.

Each register-level module is a class whose `Step` computes one clock from the old registers, and is proved to
refine a small abstract machine: the baud generator an exact phase, the serializer a queue of line levels, the
decoder a list of samples, the FIFO a bounded queue. Whole-run theorems are about those machines and about
`UartCore.Run`, the composed core after any sequence of inputs from reset.

| module | about |
|---|---|
| Arithmetic | shared integer facts |
| UartFormat | formats, parity, the frame of a byte and the record of a sample list, inverse to each other |
| BaudGen, RxSync, ByteFifo, FlowCtrl, UartTx, UartRx | the RTL modules |
| UartCore | the top level, wired from the six |
| Ledger, Conservation | what becomes of every byte and record: TX and RX conservation |
| RtsSafety, RtsTight | an obedient peer cannot overrun the receive FIFO, and the bound is exact |
| LaunchTiming | on which baud tick a waiting byte is launched, and when it has come back over a wired-back line |
| Loopback | with the line wired back nothing is lost or damaged, for every increment |
| SamplingMargin, ExternalStream | when an external character, and a stream of them, is decoded |
| RtsLine | RTS on the line: a sender that obeys it loses nothing |
| TickBudget, BaudPlan | when a character cannot be received, and the baud rates for which the testbench's plan works |
| CaseOrder, CaseSelection, CaseRunner | the execution order of test cases: the algorithm as functions, the promise without the algorithm, and the imperative code |
| AgentToCore | what the testbench agent sends is what the core receives, forced errors included |
| VipCodec, Scoreboard, TxAgent, Handshake | the testbench agents: codec, stream comparison, tickets, byte handshakes |
| FourState | hex and binary text, 32-bit aval/bval chunks (section 38.15 of IEEE 1800-2017), numbers |

A Verilog vector and a C++ byte are sequences of bits, bit 0 first. The accumulator width, the oversampling
ratio, FIFO depths, RTS thresholds and bit periods are symbolic throughout.

Where several containers of the original iterate in unspecified order, the methods here choose any order; that
`CaseRunner.Runner.ComputeExecutionOrder` still equals a function of its inputs is the proof that the order
does not show.

## What the proofs found

- The RTS condition is max(deassert level, assert level + 1) + K <= depth, K being the characters a peer may
  have started before it sees RTS fall; it is exact (`RtsTight.BoundExact`). The guide
  `templates/uart_core/rtl_uart_core/docs/design_guide.md` asks for a depth of at least four so that the default
  thresholds are meaningful; at four they coincide, one such character is safe and two can overrun
  (`RtsTight.DefaultHeadroom`, `RtsTight.OverrunPossible`). A sender that looks at RTS before every character
  never has more than two outstanding (`RtsLine.LineObeys`).
- The same guide says that `tx_byte_ready` does not depend on CTS. It does exactly when a full transmit FIFO would
  launch in this clock (`UartCore.ReadyFollowsCts`, with two runs in `UartCore.ReadyShowsCts`). The model follows
  the code.
- A byte sent with the period of `tc_uart_params_for` to a core on the increment of `tc_calc_baud_inc` is received
  in time exactly below a sixteenth of the clock (`BaudPlan.PlannedByteExact`). At exactly a sixteenth the
  increment is cast to 0 and nothing is ever received (`BaudPlan.SilentAtSixteenth`).
- After a forced bad stop bit the receiving agent, which polls levels and not edges, records a frame that
  nobody sent (`VipCodec.PhantomAfterBadStop`, `VipCodec.SpacedExact`). The RTL decoder does not: it waits for a
  high line (`UartRx.Rearm`).
- The two decoders give different break flags exactly when the data is zero and two stop samples differ
  (`VipCodec.DecodersAgree`).
- `auto_expect` announces a parity error that cannot be seen with parity off, and misses the break of a zero
  byte with a forced bad stop (`TxAgent.ClaimExact`).
- A `reset_case` while a sending loop waits for RTS makes it take the front of an empty queue
  (`TxAgent.OnlyResetEmpties`, `TxAgent.ResetWhileWaiting`). After more than 2^32 tickets `is_done` can be wrong
  (`TxAgent.TicketsRepeat`).
- `pop_rx_byte` called with the ready pin high in the low phase loses a record unreported
  (`Handshake.Bench.PopRx`; `Handshake.LoseRecord` does it).
- A number written to a net wider than 64 bits does not read back, because reads keep the two most significant
  chunks (`FourState.NumberRoundTrip`).

## Model

| member | source | states |
|---|---|---|
| UartFormat.ParityAgrees | templates/uart_core/rtl_uart_core/src/uart_rx.sv:136-148 | the receiver's whole-byte parity of a masked byte equals the transmitter's width-limited parity |
| UartFormat.ParityAppend | templates/uart_core/rtl_uart_core/src/uart_tx.sv:121-133 | reduction xor of a concatenation is the xor of the parts, which is why zero-filled upper bits never matter |
| UartFormat.DecodeOfFrame | templates/uart_core/rtl_uart_core/src/uart_rx.sv:237-320 | the samples of any transmitted character, in any format, decode to its masked byte with all flags clear |
| UartFormat.FrameOfDecode | templates/uart_core/rtl_uart_core/src/uart_rx.sv:237-320 | converse: a low start sample and a record without frame or parity error determine every sample, and they are the transmitted frame |
| UartFormat.ParityIsOdd | templates/uart_core/rtl_uart_core/src/uart_tx.sv:121-133 | reduction xor is true exactly for an odd number of ones |
| UartFormat.FrameParity | templates/uart_core/rtl_uart_core/src/uart_tx.sv:121-150 | data bits and parity bit of a frame hold an even number of ones for code 1, an odd number for code 2; the other codes have no parity bit |
| UartFormat.CodesMean | templates/uart_core/rtl_uart_core/src/uart_tx.sv:85-118 | codes 0 to 3 are five to eight data bits, code 1 alone is two stop bits |
| BaudGen.BaudGenerator.Step | templates/uart_core/rtl_uart_core/src/uart_baud_gen.sv:72-100 | one clock of the registers follows the exact phase; accumulator and count always are residues of that phase and the ticks are its overflows |
| BaudGen.BaudGenerator.constructor | templates/uart_core/rtl_uart_core/src/uart_baud_gen.sv:73-77 | reset gives phase zero and no tick |
| BaudGen.SlotStep | templates/uart_core/rtl_uart_core/src/uart_baud_gen.sv:88-97 | the running count of overflows moves on exactly on oversample ticks, and a baud tick is an oversample tick at slot zero |
| BaudGen.TicksExact | templates/uart_core/rtl_uart_core/src/uart_baud_gen.sv:70-100 | after n enabled clocks with a constant increment there were exactly floor(n*inc/2^W) oversample ticks and floor of that over the ratio baud ticks |
| BaudGen.TickSpacing | templates/uart_core/rtl_uart_core/src/uart_baud_gen.sv:70-100 | neighbouring oversample ticks are floor(2^W/inc) or ceil(2^W/inc) clocks apart |
| RxSync.Synchronizer.Step | templates/uart_core/rtl_uart_core/src/uart_rx_sync.sv:59-65 | the shift register is a three-clock delay line |
| ByteFifo.RingPush | templates/uart_core/rtl_uart_core/src/uart_byte_fifo.sv:95-104 | writing the slot at the write pointer appends to the queue the ring stands for |
| ByteFifo.RingPop | templates/uart_core/rtl_uart_core/src/uart_byte_fifo.sv:106-112 | advancing the read pointer removes the oldest element, which is what the read pointer showed |
| ByteFifo.Fifo.constructor | templates/uart_core/rtl_uart_core/src/uart_byte_fifo.sv:86-90 | reset gives an empty queue |
| ByteFifo.Fifo.Empty | templates/uart_core/rtl_uart_core/src/uart_byte_fifo.sv:75-78 | empty exactly when the queue is |
| ByteFifo.Fifo.Full | templates/uart_core/rtl_uart_core/src/uart_byte_fifo.sv:76 | full exactly when the queue has DEPTH elements |
| ByteFifo.Fifo.CanPush | templates/uart_core/rtl_uart_core/src/uart_byte_fifo.sv:79-81 | ready exactly when there is room or the head leaves in the same clock |
| ByteFifo.Fifo.PopData | templates/uart_core/rtl_uart_core/src/uart_byte_fifo.sv:83 | the oldest element whenever there is one |
| ByteFifo.Fifo.Pop | templates/uart_core/rtl_uart_core/src/uart_byte_fifo.sv:106-112 | removes exactly the oldest element |
| ByteFifo.Fifo.Push | templates/uart_core/rtl_uart_core/src/uart_byte_fifo.sv:95-104 | appends exactly the pushed element |
| ByteFifo.Fifo.Step | templates/uart_core/rtl_uart_core/src/uart_byte_fifo.sv:75-128 | one clock of pointers, level and array refines one clock of a bounded queue: clear first, then pop and push, both also when full |
| ByteFifo.NextIgnoresData | templates/uart_core/rtl_uart_core/src/uart_byte_fifo.sv:81-97 | without an offered push the data input has no effect |
| FlowCtrl.FlowController.Step | templates/uart_core/rtl_uart_core/src/uart_hw_flow_ctrl.sv:79-99 | one clock of RTS hysteresis and the CTS synchronizer |
| FlowCtrl.FlowController.TxStartAllowed | templates/uart_core/rtl_uart_core/src/uart_hw_flow_ctrl.sv:101-105 | a launch is allowed when flow control is off or the normalised CTS is active |
| FlowCtrl.FlowController.UartRtsO | templates/uart_core/rtl_uart_core/src/uart_hw_flow_ctrl.sv:108-111 | read in the configured polarity, as the testbench does, the pin is rts_active |
| UartTx.FrameLevels | templates/uart_core/rtl_uart_core/src/uart_tx.sv:212-249 | level by level: a frame is start, least significant data bit first, optional parity, stop bits |
| UartTx.NextIgnoresData | templates/uart_core/rtl_uart_core/src/uart_tx.sv:173-182 | the data input matters only on a start request |
| UartTx.Serializer.constructor | templates/uart_core/rtl_uart_core/src/uart_tx.sv:153-163 | reset is idle with the line high |
| UartTx.Serializer.UartTxO | templates/uart_core/rtl_uart_core/src/uart_tx.sv:280 | the line register always shows the first unfinished bit period of the frame, idle level otherwise |
| UartTx.Serializer.ReadyForStart | templates/uart_core/rtl_uart_core/src/uart_tx.sv:278 | ready exactly when no bit period is left |
| UartTx.Serializer.StepIdle | templates/uart_core/rtl_uart_core/src/uart_tx.sv:168-210 | a start latches format and byte and queues the whole frame |
| UartTx.Serializer.StepStart | templates/uart_core/rtl_uart_core/src/uart_tx.sv:212-218 | start bit state refines the level queue |
| UartTx.Serializer.StepData | templates/uart_core/rtl_uart_core/src/uart_tx.sv:220-238 | data state, with its three-bit index sum, refines the level queue |
| UartTx.Serializer.StepParity | templates/uart_core/rtl_uart_core/src/uart_tx.sv:240-246 | parity state refines the level queue |
| UartTx.Serializer.StepStop | templates/uart_core/rtl_uart_core/src/uart_tx.sv:248-269 | stop state refines the level queue and raises done at its end |
| UartTx.Serializer.Step | templates/uart_core/rtl_uart_core/src/uart_tx.sv:152-276 | one clock of the registers is one clock of the abstract level queue |
| UartTx.FrameOnTheLine | templates/uart_core/rtl_uart_core/src/uart_tx.sv:173-269 | from launch on, bit period j of the line is level j of the frame latched at launch, one per baud tick, whatever enables, formats, start and data inputs do |
| UartTx.FrameDone | templates/uart_core/rtl_uart_core/src/uart_tx.sv:248-268 | done comes exactly bits-per-frame baud ticks after the launch and not before |
| UartTx.LaunchSpacing | templates/uart_core/rtl_uart_core/src/uart_core.sv:257-259 | two launches are at least bits-per-frame + 1 baud ticks apart |
| UartRx.TrackStart | templates/uart_core/rtl_uart_core/src/uart_rx.sv:213-235 | an accepted start sample keeps the registers in step with the samples |
| UartRx.TrackData | templates/uart_core/rtl_uart_core/src/uart_rx.sv:237-259 | a data sample keeps data_q the sampled bits with zeros above and all_data_zero_q equal to data_q == 0 |
| UartRx.TrackParity | templates/uart_core/rtl_uart_core/src/uart_rx.sv:261-286 | the parity flag is the parity error of the sampled character |
| UartRx.TrackStop | templates/uart_core/rtl_uart_core/src/uart_rx.sv:288-320 | stop_low_seen_q equals frame_error_q, equals some stop sample low; the last one makes the flags those of the complete sample list |
| UartRx.Decoder.constructor | templates/uart_core/rtl_uart_core/src/uart_rx.sv:151-169 | reset is idle, armed and without a record |
| UartRx.Decoder.CharValid | templates/uart_core/rtl_uart_core/src/uart_rx.sv:357 | valid exactly in the clock in which a record is published |
| UartRx.Decoder.CharRecord | templates/uart_core/rtl_uart_core/src/uart_rx.sv:358-361 | the published byte and flags are the record of the samples |
| UartRx.Decoder.StepIdle | templates/uart_core/rtl_uart_core/src/uart_rx.sv:177-211 | idle state refines the sample machine: arming, start detection, format latch |
| UartRx.Decoder.StepStart | templates/uart_core/rtl_uart_core/src/uart_rx.sv:213-235 | half-bit count, accepted or rejected start |
| UartRx.Decoder.StepData | templates/uart_core/rtl_uart_core/src/uart_rx.sv:237-259 | data state takes the next sample in its own place |
| UartRx.Decoder.StepParity | templates/uart_core/rtl_uart_core/src/uart_rx.sv:261-286 | parity state takes the parity sample |
| UartRx.Decoder.StepStop | templates/uart_core/rtl_uart_core/src/uart_rx.sv:288-320 | stop state takes the stop samples; the completed flags are those of the whole sample list |
| UartRx.Decoder.StepDone | templates/uart_core/rtl_uart_core/src/uart_rx.sv:322-348 | the record is published for one clock, event pulses equal to its flags |
| UartRx.Decoder.Step | templates/uart_core/rtl_uart_core/src/uart_rx.sv:150-355 | one clock of the registers is one clock of the abstract sample machine, with the record invariants kept |
| UartRx.RunCoherent | templates/uart_core/rtl_uart_core/src/uart_rx.sv:176-353 | every state a run reaches from reset holds fewer samples than its frame, a low start sample and a tick count below the next sample point |
| UartRx.Rearm | templates/uart_core/rtl_uart_core/src/uart_rx.sv:177-235 | on any waveform two starts are separated by an idle clock with the line high |
| UartRx.DecodeAllLow | templates/uart_core/rtl_uart_core/src/uart_rx.sv:308-310 | all-low samples are a break with frame error, with a parity error exactly in odd mode |
| UartRx.LowAndIdle | templates/uart_core/rtl_uart_core/src/uart_rx.sv:186-190 | an unarmed decoder on a low line never completes anything |
| UartRx.HeldLow | templates/uart_core/rtl_uart_core/src/uart_rx.sv:177-348 | after any history, a start on a line then held low yields exactly one record, the break of the latched format, exactly when the ticks of a whole character have passed |
| UartRx.LowFromHere | templates/uart_core/rtl_uart_core/src/uart_rx.sv:177-348 | the same from the middle of any character that has been low so far |
| UartRx.FalseStart | templates/uart_core/rtl_uart_core/src/uart_rx.sv:215-230 | after any history, a start whose mid-bit sample is high yields no record and disarms the decoder |
| UartCore.Core.constructor | templates/uart_core/rtl_uart_core/src/uart_core.sv:155-311 | reset of the wired instances |
| UartCore.Core.Wires | templates/uart_core/rtl_uart_core/src/uart_core.sv:257-259 | tx_start from the instances is the abstract tx_start |
| UartCore.LaunchExact | templates/uart_core/rtl_uart_core/src/uart_hw_flow_ctrl.sv:104-106 | a launch is a wanted one on a baud tick that is not blocked; cts_blocked is up exactly when, under flow control and with CTS inactive, both enables, a waiting byte and an idle serializer ask for a launch |
| UartCore.ReadyFollowsCts | templates/uart_core/rtl_uart_core/src/uart_core.sv:236-259 | two CTS levels give a different tx_byte_ready if and only if, under flow control and without a clear, a full queue would launch on this baud tick |
| UartCore.ReadyShowsCts | templates/uart_core/rtl_uart_core/src/uart_core.sv:236-259 | two runs from reset that differ in the CTS pin alone end in different tx_byte_ready |
| UartCore.RtsWithoutFlow | templates/uart_core/rtl_uart_core/src/uart_hw_flow_ctrl.sv:108-110 | with runtime flow control off RTS is active exactly when core and receiver are enabled |
| UartCore.RtsNextClock | templates/uart_core/rtl_uart_core/src/uart_hw_flow_ctrl.sv:87-99 | RTS after a clock: inactive after a disabled receiver, active after flow control was off, otherwise by hysteresis on the receive level |
| UartCore.CtsPinActs | templates/uart_core/rtl_uart_core/src/uart_hw_flow_ctrl.sv:79-106 | the CTS pin permits or blocks launches three clocks later, in the configured polarity |
| UartCore.CtsFromReset | templates/uart_core/rtl_uart_core/src/uart_hw_flow_ctrl.sv:65-106 | from reset on a launch is permitted for three clocks and then exactly when the pin was active three clocks ago |
| UartCore.DisabledGenerator | templates/uart_core/rtl_uart_core/src/uart_baud_gen.sv:79-85 | a disabled clock puts the generator back to its reset state, without ticks |
| UartCore.DisabledReceiver | templates/uart_core/rtl_uart_core/src/uart_rx.sv:177-211 | a receiver that is off in every clock receives nothing |
| UartCore.StartOfCharacter | templates/uart_core/rtl_uart_core/src/uart_rx.sv:186-211 | an enabled armed receiver starts on a low line with the format of that clock; a falling edge seen while off is lost |
| LaunchTiming.BeginsExactly | templates/uart_core/rtl_uart_core/src/uart_core.sv:235-259 | a character begins if and only if both enables are high, a byte waits, the serializer is idle, a baud tick comes and CTS permits; it is the oldest byte |
| LaunchTiming.LaunchTimed | templates/uart_core/rtl_uart_core/src/uart_core.sv:235-259 | with both enables high, CTS permitting and no clear, the byte with k bytes ahead of it has begun if and only if more than the rest of the current character and k * (bits + 1) baud ticks have passed; bytes begin in order |
| LaunchTiming.LaunchedWithin | templates/uart_core/rtl_uart_core/src/uart_core.sv:235-259 | so it begins within k + 1 frames of bits + 1 baud ticks, one more for a character under way |
| LaunchTiming.PinsPermit | templates/uart_core/rtl_uart_core/src/uart_hw_flow_ctrl.sv:79-106 | a CTS pin held active, the enables and no clear are enough for that |
| LaunchTiming.TicksFromReset | templates/uart_core/rtl_uart_core/src/uart_baud_gen.sv:70-100 | the baud ticks of a run from reset with a constant increment, in clocks |
| LaunchTiming.NothingOwed | templates/uart_core/rtl_uart_core/src/uart_core.sv:155-278 | with the line wired back, a baud tick that finds the serializer idle finds everything received |
| LaunchTiming.LoopDelivers | templates/uart_core/rtl_uart_core/src/uart_core.sv:155-278 | with the line wired back every waiting byte is received, clean, once the ticks of the bytes ahead of it and its own frame have passed |
| UartCore.Core.UartRtsO | templates/uart_core/rtl_uart_core/src/uart_core.sv:280-314 | whoever reads the RTS pin in the configured polarity reads rts_active, with or without the flow-control feature |
| UartCore.Core.StepEngines | templates/uart_core/rtl_uart_core/src/uart_core.sv:155-199 | synchronizer, generator, decoder and serializer step together from their old outputs |
| UartCore.Core.StepFifos | templates/uart_core/rtl_uart_core/src/uart_core.sv:201-255 | push, pop and clear gating of both FIFOs |
| UartCore.Core.Step | templates/uart_core/rtl_uart_core/src/uart_core.sv:155-311 | one clock of the composed registers is one clock of the abstract core, with or without flow control |
| Ledger.NextBalanced | templates/uart_core/rtl_uart_core/src/uart_core.sv:201-255 | one clock of a bounded queue keeps the books: every arrival has exactly one fate, served and queued ones keep their order |
| Ledger.NextDescribes | templates/uart_core/rtl_uart_core/src/uart_byte_fifo.sv:86-128 | the real queue and the logs stay the ones the book describes |
| Ledger.BalancedCount | templates/uart_core/rtl_uart_core/src/uart_core.sv:201-255 | arrivals = served + queued + dropped + cleared |
| Ledger.NothingLost | templates/uart_core/rtl_uart_core/src/uart_byte_fifo.sv:86-128 | with nothing dropped or cleared the arrivals are the served ones followed by the queue |
| Conservation.TxConservation | templates/uart_core/rtl_uart_core/src/uart_core.sv:235-259 | on any run every accepted byte is, exactly once and in order, launched, discarded by a clear or still queued, also when launch and clear coincide |
| Conservation.DoneCount | templates/uart_core/rtl_uart_core/src/uart_tx.sv:168-268 | done events equal launches minus the character being serialized |
| Conservation.RxConservation | templates/uart_core/rtl_uart_core/src/uart_core.sv:201-230 | on any run every decoded record is exactly once popped in order, queued, reported by one overrun event or discarded by a clear; flags stay with their byte |
| Conservation.RxPrefix | templates/uart_core/rtl_uart_core/src/uart_core.sv:201-230 | without clears and overruns decoded = popped followed by queued |
| Conservation.TxPrefix | templates/uart_core/rtl_uart_core/src/uart_core.sv:235-259 | without clears accepted = launched followed by queued |
| RtsSafety.ArrivalsApart | templates/uart_core/rtl_uart_core/src/uart_rx.sv:322-327 | the decoder never completes characters in neighbouring clocks |
| RtsSafety.SafeStep | templates/uart_core/rtl_uart_core/src/uart_hw_flow_ctrl.sv:87-99 | one clock keeps level + outstanding below the bound that RTS stands for |
| RtsSafety.SafeRun | templates/uart_core/rtl_uart_core/src/uart_hw_flow_ctrl.sv:87-111 | the bound holds in every state of every obedient run |
| RtsSafety.NoOverrun | templates/uart_core/rtl_uart_core/src/uart_core.sv:201-225 | a peer that starts characters only while rts_active, with at most K outstanding, never causes event_rx_overrun when max(deassert, assert + 1) + K fits the FIFO; pops, clears and enables are free |
| RtsTight.GreedyRun | templates/uart_core/rtl_uart_core/src/uart_hw_flow_ctrl.sv:87-99 | a peer that always starts as many characters as it may is obedient up to and including the first overrun, on any run that empties nothing, when the bound fails |
| RtsTight.Breaks | templates/uart_core/rtl_uart_core/src/uart_rx.sv:177-348 | from reset any number of records can be received without one being taken |
| RtsTight.OverrunPossible | templates/uart_core/rtl_uart_core/src/uart_core.sv:201-225 | whenever the bound fails there is an obedient run of legal inputs with an overrun, for any thresholds, depth, ratio and accumulator width |
| RtsTight.BoundExact | templates/uart_core/rtl_uart_core/src/uart_hw_flow_ctrl.sv:87-111 | no obedient peer can cause an overrun if and only if max(deassert, assert + 1) + K fits the FIFO |
| RtsTight.DefaultHeadroom | templates/uart_core/rtl_uart_core/src/uart_core.sv:46-47 | with the default thresholds one outstanding character is safe exactly from depth three on, two exactly from depth five on |
| RtsLine.LineObeys | templates/uart_core/rtl_uart_core/src/uart_rx.sv:177-348 | a sender on the line that starts each character only while rts_active is an obedient peer with at most two outstanding: arrivals are derived from the line |
| RtsLine.LineNoOverrun | templates/uart_core/rtl_uart_core/src/uart_core.sv:201-225 | such a sender never causes an overrun when the FIFO has room for two above the ceiling |
| RtsLine.LineLossless | templates/uart_core/rtl_uart_core/src/uart_core.sv:201-230 | and without clears everything it sends is popped or queued, masked, in order, without flags |
| Loopback.SampleInsideBit | templates/uart_core/rtl_uart_core/src/uart_rx.sv:213-320 | each sample is taken in its own bit period, later in it than the synchronizer delay; the decoder lags launch by 0 to 4 ticks |
| Loopback.LineStep | templates/uart_core/rtl_uart_core/src/uart_tx.sv:212-269 | generator, serializer and synchronizer stay where the bit-and-tick coordinate says |
| Loopback.RxSampling | templates/uart_core/rtl_uart_core/src/uart_rx.sv:213-320 | one clock in the middle of a character keeps the receive half of the invariant |
| Loopback.RxStep | templates/uart_core/rtl_uart_core/src/uart_rx.sv:176-355 | one clock without a launch keeps the receive half of the invariant |
| Loopback.RxLaunch | templates/uart_core/rtl_uart_core/src/uart_core.sv:257-259 | at a launch nothing is owed and the decoder is idle and armed |
| Loopback.LoopStep | templates/uart_core/rtl_uart_core/src/uart_core.sv:155-278 | one clock of the wired-back core keeps the whole invariant |
| Loopback.LoopInvariantHolds | templates/uart_core/rtl_uart_core/src/uart_core.sv:155-278 | the invariant ties serializer, synchronizer, phase and decoder together in every reachable state |
| Loopback.Lossless | templates/uart_core/rtl_uart_core/src/uart_rx.sv:150-355 | every run from reset with the line wired back: received = launched bytes masked to the width, no error flag, in order, minus at most the one in flight; OVERSAMPLE of 8 or more, any increment, even changing every clock |
| Loopback.EndToEnd | templates/uart_core/rtl_uart_core/src/uart_core.sv:201-259 | the records popped are the first bytes accepted, masked, when nothing was cleared or overrun |
| SamplingMargin.MarginSuffices | templates/uart_core/rtl_uart_core/src/uart_rx.sv:237-320 | the inequality for sample m puts it inside bit m for every phase |
| SamplingMargin.MarginExact | templates/uart_core/rtl_uart_core/src/uart_baud_gen.sv:70-100 | the inequality holds if and only if the sample lands inside its bit for every phase |
| SamplingMargin.MarginCorners | templates/uart_core/rtl_uart_core/src/uart_rx.sv:213-320 | three corner inequalities on P and cfg_baud_inc hold if and only if all samples of the frame have their margin |
| SamplingMargin.DecodeClock | templates/uart_core/rtl_uart_core/src/uart_rx.sv:213-320 | in every clock of the character a due sample is the level of its own bit |
| SamplingMargin.ExternalDecode | templates/uart_core/rtl_uart_core/src/uart_rx.sv:177-348 | an external character of P clocks per bit within the margin is decoded to exactly the record of its levels, for any generator phase |
| SamplingMargin.ExternalByte | templates/uart_core/rtl_uart_core/src/uart_rx.sv:177-348 | a frame of a byte is received as that byte with clear flags |
| SamplingMargin.Delivery | templates/uart_core/rtl_uart_core/src/uart_rx.sv:288-327 | from any point of the character the record still comes, within a given bound on the last sample and not early, and leaves the decoder disarmed |
| ExternalStream.OneChar | templates/uart_core/rtl_uart_core/src/uart_rx.sv:177-348 | each character of a stream is decoded once, before its successor is seen |
| ExternalStream.CharHeard | templates/uart_core/rtl_uart_core/src/uart_rx.sv:177-348 | between two characters exactly the record of the first appears, and the decoder is armed for the second |
| ExternalStream.StreamDecoded | templates/uart_core/rtl_uart_core/src/uart_rx.sv:150-355 | a stream of characters with any gaps or none, within the stream margin, is decoded character by character in any phase, each in time |
| TickBudget.BudgetKept | templates/uart_core/rtl_uart_core/src/uart_rx.sv:213-320 | whatever the line shows, the decoder holds no more samples than the ticks it has seen pay for |
| TickBudget.NoRecordYet | templates/uart_core/rtl_uart_core/src/uart_rx.sv:213-327 | no record while the ticks of a whole character are missing |
| TickBudget.TicksAreCarries | templates/uart_core/rtl_uart_core/src/uart_baud_gen.sv:86-97 | the ticks of a run are the overflows of its phase, but for the one up at the start |
| BaudPlan.PlannedMargin | templates/uart_core/vip_uart_core/src/cases/tc_utils.cpp:34-50 | below a sixteenth of the clock the rounded period and increment keep the margin of every format |
| BaudPlan.PlannedStream | templates/uart_core/vip_uart_core/src/cases/tc_utils.cpp:34-50 | from 19 clocks per bit on the plan keeps the margin for streams as well |
| BaudPlan.PlanExact | templates/uart_core/vip_uart_core/src/cases/tc_utils.cpp:34-50 | the margin inequalities of the longest format hold if and only if 16 * baud < CLK_HZ |
| BaudPlan.PlannedByteLost | templates/uart_core/vip_uart_core/src/cases/tc_utils.cpp:34-50 | from a sixteenth of the clock on no planned byte is received by its deadline, in any format, phase and run |
| BaudPlan.LeastPeriod | templates/uart_core/vip_uart_core/src/cases/tc_utils.cpp:34-50 | every plan with 17 or more clocks per bit is sound; at 6.25 MBd there are 16 and the 32-bit cast makes the increment 0 |
| BaudPlan.PlannedByte | templates/uart_core/vip_uart_core/src/cases/tc_utils.cpp:34-50 | a byte sent with the planned period to a core on the planned increment is received as sent, in any format and phase |
| BaudPlan.PlannedByteExact | templates/uart_core/vip_uart_core/src/cases/tc_utils.cpp:34-50 | in every format and phase a planned byte is received in time if and only if 16 * baud < CLK_HZ, which is also when the longest format has its margin |
| BaudPlan.SilentAtSixteenth | templates/uart_core/vip_uart_core/src/cases/tc_utils.cpp:34-37 | at 6.25 MBd nothing is ever received, whatever the line shows |
| CaseOrder.ClosureIsLeast | templates/uart_core/vip_uart_core/ext/vip_common/runner/runner.cpp:208-236 | the selection is the least registered set that contains the chosen cases and their registered prerequisites |
| CaseOrder.PriorityContents | templates/uart_core/vip_uart_core/ext/vip_common/runner/runner.cpp:238-260 | the ranking lists every selected case once |
| CaseOrder.SortProgress | templates/uart_core/vip_uart_core/ext/vip_common/runner/runner.cpp:318-338 | the sorted part only ever grows by ready cases, each after all its selected prerequisites, until none is ready |
| CaseOrder.OrderPermutes | templates/uart_core/vip_uart_core/ext/vip_common/runner/runner.cpp:318-361 | the result is a duplicate-free permutation of the selection, cycles or not |
| CaseOrder.SortLeast | templates/uart_core/vip_uart_core/ext/vip_common/runner/runner.cpp:318-338 | the sorted part is least among all continuations |
| CaseOrder.OrderLeast | templates/uart_core/vip_uart_core/ext/vip_common/runner/runner.cpp:238-338 | when any topological order exists, the result is one and is rank-lexicographically least among all of them |
| CaseOrder.AcyclicSortsAll | templates/uart_core/vip_uart_core/ext/vip_common/runner/runner.cpp:340 | a topological order leaves no leftovers |
| CaseOrder.WalkLeft | templates/uart_core/vip_uart_core/ext/vip_common/runner/runner.cpp:340-351 | a case with a cycle above it is never sorted |
| CaseOrder.LeftoverExact | templates/uart_core/vip_uart_core/ext/vip_common/runner/runner.cpp:340-361 | a case is left over if and only if it has a dependency cycle among its ancestors or itself |
| CaseOrder.PlanUnchanged | templates/uart_core/vip_uart_core/ext/vip_common/runner/runner.cpp:244-338 | a plan that lists its closure in dependency order comes back with later duplicates removed |
| CaseOrder.RankSortedUnique | templates/uart_core/vip_uart_core/ext/vip_common/runner/runner.cpp:353-356 | sorting by injective ranks has one result |
| CaseOrder.LeastRankIsFirst | templates/uart_core/vip_uart_core/ext/vip_common/runner/runner.cpp:300-316 | the ready case of least rank is the first ready one of the priority list |
| CaseOrder.OpenStep | templates/uart_core/vip_uart_core/ext/vip_common/runner/runner.cpp:325-337 | finishing a case lowers the open count of each dependent by its number of edges |
| CaseSelection.ChosenExact | templates/uart_core/vip_uart_core/ext/vip_common/runner/runner.cpp:180-202 | the selection starts from a name if and only if it is registered and named by the plan or, without a plan, that of a case enabled by default |
| CaseSelection.RunsReached | templates/uart_core/vip_uart_core/ext/vip_common/runner/runner.cpp:176-376 | a case is run if and only if it is reached through registered prerequisites from a registered name of the plan or, without a plan, from an enabled case |
| CaseSelection.PriorityBefore | templates/uart_core/vip_uart_core/ext/vip_common/runner/runner.cpp:238-260 | the ranking goes by first place in the plan, then by registration |
| CaseSelection.OrderProper | templates/uart_core/vip_uart_core/ext/vip_common/runner/runner.cpp:176-376 | the order computed has all properties asked of one: each reached case once, after its prerequisites, the free ones by priority, those on or above a cycle last by priority |
| CaseSelection.ProperUnique | templates/uart_core/vip_uart_core/ext/vip_common/runner/runner.cpp:176-376 | there is only one such order |
| CaseSelection.PlainOrder | templates/uart_core/vip_uart_core/ext/vip_common/runner/runner.cpp:176-189 | without plan and prerequisites exactly the cases enabled by default run, in registration order |
| CaseRunner.Runner.AddCase | templates/uart_core/vip_uart_core/ext/vip_common/runner/runner.cpp:52-61 | a duplicate name is refused, any other is registered last |
| CaseRunner.Runner.SetPlan | templates/uart_core/vip_uart_core/ext/vip_common/runner/runner.cpp:63-65 | the plan is replaced |
| CaseRunner.Runner.AddAfter | templates/uart_core/vip_uart_core/ext/vip_common/runner/runner.cpp:98-100 | one prerequisite is appended |
| CaseRunner.Runner.InitialSelection | templates/uart_core/vip_uart_core/ext/vip_common/runner/runner.cpp:180-202 | the names of the plan if there is one and of the enabled cases otherwise, without unknown names |
| CaseRunner.Runner.SelectClosure | templates/uart_core/vip_uart_core/ext/vip_common/runner/runner.cpp:210-236 | the work list computes exactly the closure |
| CaseRunner.Runner.AssignRanks | templates/uart_core/vip_uart_core/ext/vip_common/runner/runner.cpp:241-260 | ranks are injective and ordered like the priority list |
| CaseRunner.Runner.BuildGraph | templates/uart_core/vip_uart_core/ext/vip_common/runner/runner.cpp:262-288 | adjacency lists and indegrees are those of the selected prerequisites, duplicates counted, whatever order the set iterates in |
| CaseRunner.Runner.AddEdges | templates/uart_core/vip_uart_core/ext/vip_common/runner/runner.cpp:274-288 | the edges of one case |
| CaseRunner.Runner.PickMinRank | templates/uart_core/vip_uart_core/ext/vip_common/runner/runner.cpp:300-316 | takes the ready case of least rank out of the list |
| CaseRunner.Runner.Release | templates/uart_core/vip_uart_core/ext/vip_common/runner/runner.cpp:325-337 | lowers the indegrees of all dependents and lists those that reach zero, once |
| CaseRunner.Runner.KahnSort | templates/uart_core/vip_uart_core/ext/vip_common/runner/runner.cpp:290-338 | the loop computes the specified sorted part |
| CaseRunner.Runner.Leftover | templates/uart_core/vip_uart_core/ext/vip_common/runner/runner.cpp:340-351 | collects exactly the unsorted cases in any order |
| CaseRunner.Runner.SortByRank | templates/uart_core/vip_uart_core/ext/vip_common/runner/runner.cpp:353-356 | puts them into rank order |
| CaseRunner.Runner.ComputeExecutionOrder | templates/uart_core/vip_uart_core/ext/vip_common/runner/runner.cpp:176-376 | the whole method returns the indices of the one proper order, stated without the algorithm, so no container iteration order can show; without plan and prerequisites these are exactly the enabled cases in registration order |
| VipCodec.DataParity | templates/uart_core/vip_uart_core/ext/vip_uart/common/uart_params.hpp:98-105 | the loop is the reduction xor of the data bits |
| VipCodec.LevelsContents | templates/uart_core/vip_uart_core/ext/vip_uart/agents/uart_tx/tx_coroutines.cpp:150-186 | level by level what send_item_ puts on the line |
| VipCodec.BitOrder | templates/uart_core/vip_uart_core/ext/vip_uart/agents/uart_tx/tx_coroutines.cpp:163-171 | the data bits travel least or most significant first, as set |
| VipCodec.SendItem | templates/uart_core/vip_uart_core/ext/vip_uart/agents/uart_tx/tx_coroutines.cpp:147-188 | the waveform is the levels of the item, each held bit_clks edges |
| VipCodec.CaptureData | templates/uart_core/vip_uart_core/ext/vip_uart/agents/uart_rx/rx_coroutines.cpp:148-159 | the loop assembles the sampled bits in either bit order |
| VipCodec.CaptureStops | templates/uart_core/vip_uart_core/ext/vip_uart/agents/uart_rx/rx_coroutines.cpp:169-178 | the loop computes the framing and all-stops-low flags |
| VipCodec.CaptureFrame | templates/uart_core/vip_uart_core/ext/vip_uart/agents/uart_rx/rx_coroutines.cpp:130-185 | the coroutine returns the record of the samples at its sample points and ends at the last |
| VipCodec.Agent | templates/uart_core/vip_uart_core/ext/vip_uart/agents/uart_rx/rx_coroutines.cpp:31-79 | the polling loop records exactly the frames the waveform specification lists |
| VipCodec.DecodeLevels | templates/uart_core/vip_uart_core/ext/vip_uart/agents/uart_rx/rx_coroutines.cpp:148-182 | decoding the levels of an item: parity error exactly where forced and enabled, framing error exactly where a bad stop is forced, break exactly when the masked data is also zero |
| VipCodec.CaptureAligned | templates/uart_core/vip_uart_core/ext/vip_uart/agents/uart_rx/rx_coroutines.cpp:138-178 | with sample_clk_index + poll - 1 < bit_clks every sample lands in its own bit |
| VipCodec.BurstCaptured | templates/uart_core/vip_uart_core/ext/vip_uart/agents/uart_rx/rx_coroutines.cpp:39-79 | from an idle stretch on, a burst with any gaps is recorded item by item |
| VipCodec.RoundTrip | templates/uart_core/vip_uart_core/ext/vip_uart/agents/uart_tx/tx_coroutines.cpp:147-188 | any sequence without forced bad stops, with any gaps between items, is captured as the same frames, either polarity, either bit order |
| VipCodec.SpacedCount | templates/uart_core/vip_uart_core/ext/vip_uart/agents/uart_rx/rx_coroutines.cpp:49-60 | with a frame of idle line after each item there is one phantom frame for each forced bad stop on top of the items |
| VipCodec.SpacedExact | templates/uart_core/vip_uart_core/ext/vip_uart/agents/uart_rx/rx_coroutines.cpp:49-60 | such a sequence is captured as the same frames if and only if it has no forced bad stop |
| VipCodec.AlignmentNeeded | templates/uart_core/vip_uart_core/ext/vip_uart/agents/uart_rx/rx_coroutines.cpp:49-57 | without the alignment condition some idle time and item are recorded wrongly |
| VipCodec.PhantomAfterBadStop | templates/uart_core/vip_uart_core/ext/vip_uart/agents/uart_rx/rx_coroutines.cpp:49-60 | a lone forced bad stop is recorded as it should be and followed by exactly one frame that nobody sent |
| VipCodec.DecodersAgree | templates/uart_core/rtl_uart_core/src/uart_rx.sv:237-320 | RTL and testbench decoders return the same data, parity error and frame error, and the same break flag if and only if not (data zero and the two stop samples differ) |
| AgentToCore.CoreDecodesItem | templates/uart_core/rtl_uart_core/src/uart_rx.sv:237-320 | the RTL decoder reads the levels of an item of the sending agent as its data with exactly the forced errors |
| AgentToCore.CodesAgree | templates/uart_core/vip_uart_core/src/cases/tc_cfg.cpp:41-59 | what the testbench makes of a configuration, code by code, describes the format the core latches, for every configuration |
| AgentToCore.ItemReceived | templates/uart_core/vip_uart_core/ext/vip_uart/agents/uart_tx/tx_coroutines.cpp:147-188 | an item driven with the parameters the testbench derives from the configuration becomes exactly one record of the core, in time: its data, a parity error exactly where forced and enabled, a frame error exactly where a bad stop is forced, a break exactly when the data is then zero |
| Scoreboard.UartStream.ExpectFrame | templates/uart_core/vip_uart_core/ext/vip_uart/scoreboard/uart_scb/scb_uart_stream.cpp:77-83 | appends the masked frame to its port |
| Scoreboard.UartStream.ObserveFrame | templates/uart_core/vip_uart_core/ext/vip_uart/scoreboard/uart_scb/scb_uart_stream.cpp:85-119 | compares with and removes the oldest expectation, strictly or by data alone; without one it fails or warns, as set |
| Scoreboard.UartStream.EndCaseCheck | templates/uart_core/vip_uart_core/ext/vip_uart/scoreboard/uart_scb/scb_uart_stream.cpp:48-59 | fails exactly when outstanding expectations count and some port has any |
| Scoreboard.UartStream.ResetCase | templates/uart_core/vip_uart_core/ext/vip_uart/scoreboard/uart_scb/scb_uart_stream.cpp:43-46 | forgets expectations and counts, keeps the verdict |
| Scoreboard.PortStep | templates/uart_core/vip_uart_core/ext/vip_uart/scoreboard/uart_scb/scb_uart_stream.cpp:85-119 | one event keeps the queue of each port exact while its stream agrees |
| Scoreboard.MatchesExact | templates/uart_core/vip_uart_core/ext/vip_uart/scoreboard/uart_scb/scb_uart_stream.cpp:101-112 | the comparison is equality of the masked data and, in strict mode, of all three status flags |
| Scoreboard.FailsExact | templates/uart_core/vip_uart_core/ext/vip_uart/scoreboard/uart_scb/scb_uart_stream.cpp:85-119 | nothing was noted if and only if on every port each observation came after the expectation of the same number and has the same masked data, and the same flags in strict mode |
| Scoreboard.NoFailureExact | templates/uart_core/vip_uart_core/ext/vip_uart/scoreboard/uart_scb/scb_uart_stream.cpp:48-119 | a case ends clean if and only if on every port expected and observed streams are equally long and the i-th observation came after the i-th expectation with equal masked data, and equal flags in strict mode; unless unexpected frames are waived, clean means no failure |
| Scoreboard.WarnsExact | templates/uart_core/vip_uart_core/ext/vip_uart/scoreboard/uart_scb/scb_uart_stream.cpp:85-99 | where unexpected frames are waived there is no warning if and only if observations never outnumber expectations |
| Handshake.HeadStays | templates/uart_core/rtl_uart_core/src/uart_byte_fifo.sv:75-83 | without pop and clear the head of the receive queue stays |
| Handshake.Bench.TxByteReadyOut | templates/uart_core/rtl_uart_core/src/uart_core.sv:236 | tx_byte_ready as seen in the low phase is what the next rising edge acts on |
| Handshake.Bench.RxByteOut | templates/uart_core/rtl_uart_core/src/uart_core.sv:226-230 | the oldest record, if any |
| Handshake.Bench.Rise | templates/uart_core/vip_uart_core/src/agents/uart_core_intf/intf.cpp:148 | a rising edge steps the core and takes or hands over exactly what the pins ask for |
| Handshake.Bench.Fall | templates/uart_core/vip_uart_core/ext/vip_common/common/common.cpp:45-63 | waiting for a falling edge passes a rising one exactly from the low phase |
| Handshake.Bench.TryPush | templates/uart_core/vip_uart_core/src/agents/uart_core_intf/intf.cpp:130-168 | the byte enters the core exactly once when accepted is reported and never otherwise, for any timeout and any other inputs, clears included; a valid pin high at a start in the low phase is taken once before, exactly when the core was ready; a refusal has offered the byte for the whole timeout to a core that was never ready |
| Handshake.Bench.Acknowledge | templates/uart_core/vip_uart_core/src/agents/uart_core_intf/intf.cpp:203-219 | exactly the record seen is removed unless a clear comes in between, and never more than one |
| Handshake.Bench.PopRx | templates/uart_core/vip_uart_core/src/agents/uart_core_intf/intf.cpp:170-230 | exactly the reported record is removed when no clear comes during the call, never more than one otherwise, preceded by one unreported record if and only if the call started in the low phase with ready high and a record waiting; a timeout looked at an empty queue every time |
| Handshake.LoseRecord | templates/uart_core/vip_uart_core/src/agents/uart_core_intf/intf.cpp:170-238 | set_rx_ready(true) and pop_rx_byte with a timeout of 0 after a received record: nothing is reported and the record is gone |
| Handshake.RecordCanWait | templates/uart_core/vip_uart_core/src/agents/uart_core_intf/intf.cpp:232-238 | every core that can receive reaches such a state |
| Handshake.Bench.SetRxReady | templates/uart_core/vip_uart_core/src/agents/uart_core_intf/intf.cpp:232-238 | the pin changes after the next falling edge |
| TxAgent.UartTx.EnqueueByte | templates/uart_core/vip_uart_core/ext/vip_uart/agents/uart_tx/tx_agent.cpp:114-118 | the next ticket, the masked byte and the armed errors go to the back of the port queue, and the frame to the scoreboard where auto_expect is on; an unknown port changes nothing |
| TxAgent.UartTx.EnqueueBytes | templates/uart_core/vip_uart_core/ext/vip_uart/agents/uart_tx/tx_agent.cpp:120-127 | byte by byte, announced one by one, returning the last ticket, 0 for no bytes, none for an unknown port |
| TxAgent.UartTx.ResetCase | templates/uart_core/vip_uart_core/ext/vip_uart/agents/uart_tx/tx_agent.cpp:94-102 | queues, histories, armed errors and tickets are forgotten; loops under way and auto_expect go on |
| TxAgent.UartTx.RtsDecided | templates/uart_core/vip_uart_core/ext/vip_uart/agents/uart_tx/tx_coroutines.cpp:53-61 | the front item is taken, or the wait has timed out; an empty queue at this point is reported as undefined |
| TxAgent.UartTx.SeePendingItem | templates/uart_core/vip_uart_core/ext/vip_uart/agents/uart_tx/tx_coroutines.cpp:48-51 | the look of the loop at its queue |
| TxAgent.UartTx.FinishItem | templates/uart_core/vip_uart_core/ext/vip_uart/agents/uart_tx/tx_coroutines.cpp:186-188 | history and ticket are marked |
| TxAgent.UartTx.TicketIsDone | templates/uart_core/vip_uart_core/ext/vip_uart/agents/uart_tx/tx_agent.cpp:208-211 | on every history of the class with at most 2^32 tickets, the answer for the ticket of an item is whether its frame has been sent |
| TxAgent.PortStep | templates/uart_core/vip_uart_core/ext/vip_uart/agents/uart_tx/tx_coroutines.cpp:39-68 | items enqueued = sent + being sent + pending, in order, whatever happens on the port |
| TxAgent.ItemsFromEvents | templates/uart_core/vip_uart_core/ext/vip_uart/agents/uart_tx/tx_agent.cpp:168-188 | after any interleaving the items of a port are its Enqueue events since the last reset_case, in order, each with the masked byte of its event and a forced error exactly where it was armed since the Enqueue before it |
| TxAgent.AutoExpectFollows | templates/uart_core/vip_uart_core/ext/vip_uart/agents/uart_tx/tx_agent.cpp:104-112 | a port announces frames exactly when it was last told to |
| TxAgent.OneRound | templates/uart_core/vip_uart_core/ext/vip_uart/agents/uart_tx/tx_coroutines.cpp:48-68 | a round of the loop moves the front item to the history and completes its ticket |
| TxAgent.TimeoutRound | templates/uart_core/vip_uart_core/ext/vip_uart/agents/uart_tx/tx_coroutines.cpp:53-61 | a timed-out wait changes nothing |
| TxAgent.NothingLost | templates/uart_core/vip_uart_core/ext/vip_uart/agents/uart_tx/tx_agent.cpp:114-188 | after every interleaving, of any length, the items of each port are those sent, the one being sent and those pending, in order |
| TxAgent.RunSound | templates/uart_core/vip_uart_core/ext/vip_uart/agents/uart_tx/tx_agent.cpp:94-188 | queue, history and ticket bookkeeping are sound after every interleaving with at most 2^32 tickets |
| TxAgent.DoneExact | templates/uart_core/vip_uart_core/ext/vip_uart/agents/uart_tx/tx_agent.cpp:208-211 | a ticket since the last reset_case is done if and only if its frame has been sent |
| TxAgent.DoneInOrder | templates/uart_core/vip_uart_core/ext/vip_uart/agents/uart_tx/tx_agent.cpp:94-211 | a done ticket implies all earlier tickets of its port are done, with their frames in the history in the order of enqueueing |
| TxAgent.TicketsDistinct | templates/uart_core/vip_uart_core/ext/vip_uart/agents/uart_tx/tx_agent.cpp:168-182 | no two items since the last reset_case share a ticket |
| TxAgent.TicketsRepeat | templates/uart_core/vip_uart_core/ext/vip_uart/agents/uart_tx/tx_agent.cpp:168-182 | the bound is exact: for every larger number of tickets a run in which a ticket reads done though its frame has not been sent |
| TxAgent.OnlyResetEmpties | templates/uart_core/vip_uart_core/ext/vip_uart/agents/uart_tx/tx_coroutines.cpp:48-61 | the loop reaches the front of an empty queue if and only if reset_case came while it waited for RTS |
| TxAgent.ResetWhileWaiting | templates/uart_core/vip_uart_core/ext/vip_uart/agents/uart_tx/tx_coroutines.cpp:48-61 | a concrete run that gets there |
| TxAgent.ClaimExact | templates/uart_core/vip_uart_core/ext/vip_uart/agents/uart_tx/tx_agent.cpp:168-188 | for every item made, the frame auto_expect announces matches what a receiver decodes if and only if no parity error is forced with parity off and no bad stop is forced on zero data |
| FourState.WriteString | main/src/testbase/awaitwrite.cpp:119-151 | the loop packs the string bit by bit from its right end; it leaves the vector exactly when a character beyond it would set a bit |
| FourState.ReadString | main/src/testbase/awaitread.cpp:131-156 | the loop unpacks all bits, most significant first |
| FourState.StringRoundTrip | main/src/testbase/awaitwrite.cpp:119-151 | any string over 0, 1, x, z that fits comes back at the width of the chunks, padded with zeros; only leading zeros are ever cut |
| FourState.StringOnNet | main/src/testbase/awaitread.cpp:131-156 | on a net narrower than its chunks the string comes back at the width of the net |
| FourState.HexToBinImpl | main/src/testbase/utility.cpp:219-234 | digit by digit, failing exactly on a character that is not a hex, X or Z digit |
| FourState.QuartetToHexChar | main/src/testbase/utility.cpp:83-124 | the specified digit, failing exactly on a character that is not 0, 1, x or z |
| FourState.BinToHexImpl | main/src/testbase/utility.cpp:126-165 | groups from the right, leftmost padded, leading zeros trimmed |
| FourState.HexCharOfQuartet | main/src/testbase/utility.cpp:83-124 | each digit survives the way to binary and back, in upper case |
| FourState.RawHexOfBin | main/src/testbase/utility.cpp:126-152 | hex text survives the way to binary and back in upper case |
| FourState.HexCharFaithful | main/src/testbase/utility.cpp:83-124 | a digit stands for its own binary text alone; Z for four z, X for every other mixture of states |
| FourState.TrimMeans | main/src/testbase/utility.cpp:154-165 | exactly the leading zeros are removed, leaving one of nothing but zeros |
| FourState.HexRoundTrip | main/src/testbase/utility.cpp:126-234 | writing hex text and reading it back gives it in upper case without leading zeros, "0" if none is left, also where leading zeros go beyond the net |
| FourState.NibbleTableAgrees | main/src/testbase/utility.cpp:171-199 | the nibble table equals hex_to_bin followed by packing and accepts the same characters |
| FourState.WriteNumber | main/src/testbase/awaitwrite.cpp:109-117 | 32 bits a chunk, least significant first |
| FourState.BitsRoundTrip | main/src/testbase/awaitwrite.cpp:113-117 | a number survives the way to its bits and back |
| FourState.NumberAsText | main/src/testbase/awaitwrite.cpp:109-117 | the chunks of a number read as text are its binary text, cut to their width |
| FourState.AwaitRead.Resume | main/src/testbase/awaitread.cpp:125-158 | text of all chunks; at most two numeric chunks kept, the most significant ones |
| FourState.AwaitRead.GetNum | main/src/testbase/awaitread.cpp:186-205 | takes one or two values off, 0 when there are none |
| FourState.AwaitChange.Resume | main/src/testbase/awaitchange.cpp:146-178 | text and all numeric chunks, replacing older ones |
| FourState.AwaitChange.GetNum | main/src/testbase/awaitchange.cpp:190-210 | takes one or two values off, 0 when there are none |
| FourState.FirstNumAgrees | main/src/testbase/awaitchange.cpp:190-210 | read and change give the same first number at every width |
| FourState.NumberRoundTrip | main/src/testbase/awaitread.cpp:131-139 | a 64-bit number reads back modulo the width of a net up to 64 bits, as its high half up to 96 bits and as 0 beyond |

## Left out

- TxAgent.RunSound: for at most 2^32 tickets; beyond that tickets repeat and the claim fails, as TxAgent.TicketsRepeat shows.
- RtsLine.LineNoOverrun: for senders whose characters keep the stream margin; slower or faster ones can be decoded as something else.
- ExternalStream.StreamDecoded: the stream margin is a sufficient condition; that of a single character is exact for each sample.
- UartRx.Decoder: the registers are one datatype value in one field, so that a clock assigns them together; single-field updates are not visible.
- UartCore.Core: signals are two-valued; metastability and X propagation in the RTL are not modelled, and reset appears only as the initial state.
- Handshake.Bench: the other inputs of the core are fixed before the low phase ends and hold to the rising edge; drivers that change an input between a read and the edge are not modelled.
- Handshake.Bench.PopRx: which record a clear during the call takes is left open; it is said that the call removes at most one.
- VipCodec.SendItem: the phase-offset path with real-time delays is not modelled; its bit times are not whole clocks.
- VipCodec.SpacedExact: for items with a frame of idle line behind each; closer together, the phantom frame after a bad stop can swallow the next item.
- CaseRunner.Runner.ComputeExecutionOrder: running the cases, their time limits, hooks and summaries, and plans chosen by tag are not modelled.
- Mixed-state quartets collapse to X when read as hex; the model follows this, and no round trip is claimed for them.
- Event counters, status sampling, configuration writes, clock and reset agents: thin wrappers without further properties.
- VPI calls, callback registration, coroutine frames and the scheduler: foreign runtime; agents are steps at clock edges here.
- Logging, message texts and the RTL's debug registers and prints: no functional effect.
- Configuration changes during traffic, beyond the latched values of a character under way: the design guide promises nothing there.
