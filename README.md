# rv32-shock firmware drivers in Dafny

This project models the driver layer of the rv32-shock bare-metal RISC-V firmware and proves properties of it. The layer covers:

- the interrupt-capable UART driver and its register map (`sw/hello_world/uart.c`, `sw/hello_world/uart.h`);
- the minimal UART driver of the simulation firmware (`sw/hello_world_sim/uart.c`);
- two drivers for the threshold timer (`sw/hello_world/timer.c` and `sw/hello_world/timer_driver.c`);
- the header-only driver for the dual 32-bit AXI4-Lite timer/counter (`sw/hello_world/axi4_lite_timer.h`);
- the `makehex.py` tool, which turns a firmware binary into `$readmemh` text.

Each register block is a device value held by a small class that stands for the memory-mapped block (`UartPort`, `TimerPort`, `AxiTimerPort`).
A `Load` or `Store` on that class is one volatile register access, and the device value appends it to an access log, together with the value read or written.
So the driver contracts can name the exact register sequence a routine performs.

Driver routines are Dafny methods over these ports, with their loops as `while` loops that carry invariants.
Each method is proved equal to a function of the device state: its register sequence.
The lemmas then state what that sequence achieves, in terms of:

- the registers;
- the bytes moved through the FIFOs;
- the accesses in the log.

What the hardware does on its own is given as a schedule that is part of the device value:

- bytes arriving and leaving and line errors for the UART;
- the STATUS values and counter values successive reads show for the timers.

One scheduled UART event happens before each STATUS read.
A routine that spins without a bound therefore needs a precondition that the schedule eventually shows the awaited condition.

Files:

- `common.dfy`: Option and low-byte helpers.
- `uart_regs.dfy`: register map of `uart.h`.
- `uart_hw.dfy`: UART device and port, and the STATUS polling functions.
- `uart_driver.dfy`: handle, CONFIG word, init/configure/deinit, FIFO and status queries, interrupt-enable read-modify-writes.
- `uart_transfer.dfy`: put/get, write/read/gets, the interrupt handler, the TX drain wait.
- `uart_sim.dfy`: the simulation UART driver.
- `timer_hw.dfy`: threshold-timer device and port.
- `timer.dfy`: `timer.c`.
- `timer_driver.dfy`: `timer_driver.c`.
- `axi_timer.dfy`: `axi4_lite_timer.h`.
- `makehex.dfy`: `makehex.py`.

Where the two UART sources disagree on the meaning of CONFIG bit 3, each is modelled as written (see `UartDriver.ConfigAgreesWithRegisterMap`).

## Model

| member | source | states |
|---|---|---|
| UartRegs.StatusBitsAreDistinctSingleBits | sw/hello_world/uart.h:20-30 | the eleven STATUS flags are the single bits 0..10 and no two overlap |
| UartRegs.InterruptBitsMatchStatusBits | sw/hello_world/uart.h:41-52 | IE bits 0..10 sit at the STATUS positions; the global enable is bit 11, outside every STATUS flag |
| UartRegs.ErrorMaskIsTheFiveErrorBits | sw/hello_world/uart.h:32-36 | the error mask is exactly RX overflow, RX underflow, TX overflow, frame and parity error (0x718) |
| UartRegs.ConfigMasksAreDisjoint | sw/hello_world/uart.h:59-93 | the CONFIG field masks are pairwise disjoint and cover bits 0-7 and 9-14 only |
| UartRegs.BaudCodesFitTheirField | sw/hello_world/uart.h:76-85 | every baud code shifted into place stays inside the baud mask, distinct codes give distinct fields |
| UartRegs.FifoClearAndDepth | sw/hello_world/uart.h:98-104 | the six registers are consecutive words from 0; FIFO_CLEAR bit 0 is TX, bit 1 RX; the FIFOs hold 16 entries |
| Common.LowByte | sw/hello_world/uart.c:264-280 | `(uint8_t)` of a register word is its low eight bits |
| UartHw.OffsetsAreDistinctWords | sw/hello_world/uart.h:10-15 | registers and word offsets correspond one to one |
| UartHw.StatusWordReflectsQueues | sw/hello_world/uart.h:20-30 | each STATUS flag holds exactly when its FIFO condition does; the error bits are exactly the sticky bits |
| UartHw.LoadStep | sw/hello_world/uart.h:10-30 | a read logs itself; a STATUS read lets one event happen, shows the resulting state and clears the sticky bits; an RX_FIFO read pops the oldest byte |
| UartHw.StoreStep | sw/hello_world/uart.h:10-15 | a write logs itself; IE and CONFIG take the value; FIFO_CLEAR empties the named FIFOs; TX_FIFO appends the low byte |
| UartHw.AccessesPreserveValid | sw/hello_world/uart.h:104 | no access or event takes a FIFO past 16 entries or sets a non-error sticky bit |
| UartHw.PollStatusOutcome | sw/hello_world/uart.c:169-187 | a bounded STATUS poll makes 1..left reads, all but the last not showing the condition; it fails only after all `left` |
| UartHw.PollUntilOutcome | sw/hello_world_sim/uart.c:51-65 | an unbounded poll ends on the first read showing the condition, after reads that did not |
| UartHw.PollLogMovesNoData | sw/hello_world/uart.c:169-187 | polling STATUS moves no byte through either FIFO |
| UartDriver.BuildConfigLayout | sw/hello_world/uart.c:31-59 | data bits at [1:0], bit 2 iff parity used, bit 3 iff odd, stop bit at 4, baud at [7:5], RX threshold at [11:9], TX threshold at [14:12], bit 8 and bits 15-31 zero |
| UartDriver.DecodeBuildConfig | sw/hello_world/uart.c:31-59 | decoding the CONFIG word gives back every field truncated to its width |
| UartDriver.BuildConfigInjective | sw/hello_world/uart.c:31-59 | configurations whose fields fit are told apart by their CONFIG word |
| UartDriver.ConfigAgreesWithRegisterMap | sw/hello_world/uart.h:59-93 | the driver's layout matches the register-map masks, with bit 3 meaning odd parity in the driver and even in the map |
| UartDriver.DefaultConfigValue | sw/hello_world/uart.c:87-104 | the default configuration is 8N1 at 115200 baud with RX threshold code 7 |
| UartDriver.BaudRateValue | sw/hello_world/uart.c:611-624 | the line rate is a multiple of 9600 between 9600 and 921600; an unknown code gives 115200 |
| UartDriver.BaudRateValueIncreases | sw/hello_world/uart.c:611-624 | a higher baud code means a faster line |
| UartDriver.InitSequenceOutcome | sw/hello_world/uart.c:106-145 | init writes IE=0, FIFO_CLEAR both and CONFIG, then reads STATUS; leaves interrupts off, TX empty, no sticky error |
| UartDriver.DeinitSequenceOutcome | sw/hello_world/uart.c:147-163 | deinit writes IE=0 then FIFO_CLEAR both, leaving both FIFOs empty |
| UartDriver.Init | sw/hello_world/uart.c:87-104 | a null handle gives -1 and no access; otherwise 0, the default configuration, no callbacks, the init sequence |
| UartDriver.InitWithConfig | sw/hello_world/uart.c:106-126 | a null handle or configuration gives -1 and no access; otherwise 0 and the init sequence for that configuration |
| UartDriver.Configure | sw/hello_world/uart.c:128-145 | -1 for null arguments; otherwise 0, the handle keeps the configuration, CONFIG write then STATUS read |
| UartDriver.Deinit | sw/hello_world/uart.c:147-163 | the deinit sequence, then the handle forgets its base and callbacks |
| UartDriver.ClearTxFifo | sw/hello_world/uart.c:367-374 | one FIFO_CLEAR write of the TX bit |
| UartDriver.ClearRxFifo | sw/hello_world/uart.c:376-383 | one FIFO_CLEAR write of the RX bit |
| UartDriver.ClearFifos | sw/hello_world/uart.c:385-392 | one FIFO_CLEAR write of both bits |
| UartDriver.FifoClearsEmptyTheNamedFifos | sw/hello_world/uart.c:367-392 | each clear empties exactly the FIFOs it names |
| UartDriver.TxFifoEmpty | sw/hello_world/uart.c:394-402 | true for a null handle; otherwise one STATUS read, true iff it shows TX empty |
| UartDriver.TxFifoFull | sw/hello_world/uart.c:404-412 | true for a null handle; otherwise one STATUS read, true iff it shows TX full |
| UartDriver.RxFifoEmpty | sw/hello_world/uart.c:414-422 | true for a null handle; otherwise one STATUS read, true iff it shows RX empty |
| UartDriver.RxFifoFull | sw/hello_world/uart.c:424-432 | true for a null handle; otherwise one STATUS read, true iff it shows RX full |
| UartDriver.TxThresholdReached | sw/hello_world/uart.c:434-442 | false for a null handle; otherwise one STATUS read of the TX threshold flag |
| UartDriver.RxThresholdReached | sw/hello_world/uart.c:444-452 | false for a null handle; otherwise one STATUS read of the RX threshold flag |
| UartDriver.GetStatus | sw/hello_world/uart.c:458-465 | 0 for a null handle; otherwise the value of one STATUS read |
| UartDriver.GetErrors | sw/hello_world/uart.c:467-483 | null arguments give false and no access; otherwise one STATUS read whose five error flags fill the record, true iff any is set |
| UartDriver.StatusReadReportsAndClearsErrors | sw/hello_world/uart.c:467-503 | a STATUS read reports an error iff a sticky error bit was set, and clears them all |
| UartDriver.HasErrors | sw/hello_world/uart.c:485-493 | one STATUS read, true iff it shows an error bit |
| UartDriver.ClearErrors | sw/hello_world/uart.c:495-503 | one STATUS read, after which no sticky bit is set |
| UartDriver.EnableInterruptsOutcome | sw/hello_world/uart.c:509-518 | IE read then written as old \| mask \| global; nothing previously enabled is lost; idempotent; FIFOs untouched |
| UartDriver.DisableInterruptsOutcome | sw/hello_world/uart.c:520-528 | IE read then written with the mask cleared and every other bit kept; idempotent; FIFOs untouched |
| UartDriver.EnableInterrupts | sw/hello_world/uart.c:509-518 | the enable read-modify-write of IE |
| UartDriver.DisableInterrupts | sw/hello_world/uart.c:520-528 | the disable read-modify-write of IE |
| UartDriver.SetCallbacks | sw/hello_world/uart.c:530-540 | the handle keeps both callbacks, its base and configuration |
| UartTransfer.PutcOutcome | sw/hello_world/uart.c:169-187 | a put either queues exactly its byte as the newest TX byte and returns 0, or returns -1 after `left` STATUS reads all showing TX full, having written nothing |
| UartTransfer.Putc | sw/hello_world/uart.c:169-187 | -1 for a null handle; otherwise the blocking put with TIMEOUT_COUNT polls |
| UartTransfer.PutcNonblocking | sw/hello_world/uart.c:225-240 | -1 for a null handle; otherwise a put with a single poll |
| UartTransfer.WriteOutcome | sw/hello_world/uart.c:189-202 | a write sends a prefix of the data in order and nothing else; stopping short means TX showed full on the last `left` reads |
| UartTransfer.Write | sw/hello_world/uart.c:189-202 | -1 for null arguments; otherwise the count is the prefix length and the device is `WriteSpec` |
| UartTransfer.WriteNonblocking | sw/hello_world/uart.c:242-258 | 0 for null arguments; otherwise the count of bytes sent with single-poll puts |
| UartTransfer.Puts | sw/hello_world/uart.c:204-219 | -1 for a null argument; otherwise the count and device of a write of the characters before the NUL terminator |
| UartTransfer.CString | sw/hello_world/uart.c:211 | the characters before the first NUL: no NUL among them, and the NUL right after |
| UartTransfer.GetcOutcome | sw/hello_world/uart.c:264-280 | a get either returns and removes the oldest RX byte, or fails after `left` STATUS reads all showing RX empty, having read nothing |
| UartTransfer.Getc | sw/hello_world/uart.c:264-280 | -1 for a null handle; otherwise the byte or -1 of a blocking get |
| UartTransfer.GetcNonblocking | sw/hello_world/uart.c:328-341 | -1 for a null handle; otherwise a get with a single poll |
| UartTransfer.GetcCode | sw/hello_world/uart.c:264-280 | the C result lies in -1..255 and is -1 exactly when the get failed |
| UartTransfer.ReadOutcome | sw/hello_world/uart.c:282-297 | a read stores exactly the bytes it took from RX, in order, at most `n`, and writes no register; fewer means RX showed empty on the last `left` reads |
| UartTransfer.Read | sw/hello_world/uart.c:282-297 | the buffer's first `count` places hold the bytes read and the rest is unchanged |
| UartTransfer.ReadNonblocking | sw/hello_world/uart.c:343-361 | the same with single-poll gets |
| UartTransfer.GetsOutcome | sw/hello_world/uart.c:299-322 | gets stores the bytes taken from RX in order, stops after the first newline, a failed get or no room left |
| UartTransfer.GetLineStopsAtNewline | sw/hello_world/uart.c:299-322 | no stored byte before the last is a newline |
| UartTransfer.Gets | sw/hello_world/uart.c:299-322 | the buffer holds the line followed by a NUL; the count is the line's length, or -1 on a timeout or null argument |
| UartTransfer.DrainStops | sw/hello_world/uart.c:542-578 | the handler's drain loop ends on a failed get, within its bound |
| UartTransfer.IrqCauseOutcome | sw/hello_world/uart.c:542-550 | the handler first reads STATUS then IE, and nothing else |
| UartTransfer.DrainOutcome | sw/hello_world/uart.c:552-570 | the drain takes RX bytes in order and ends on a STATUS read showing RX empty; every access it makes is a read, and no TX byte moves |
| UartTransfer.IrqOutcome | sw/hello_world/uart.c:542-578 | the handler dispatches on status & IE: RX drains and reports each byte to rx_callback in order; TX calls tx_callback once; every access after the STATUS and IE reads is a read too, so no register is written |
| UartTransfer.IrqHandler | sw/hello_world/uart.c:542-578 | no access for a null handle; otherwise the handler's register sequence and callback calls |
| UartTransfer.WaitLoopIsPoll | sw/hello_world/uart.c:584-609 | the wait is a bounded poll of timeout_ms*1000 (32-bit) reads, or of 2^32 for a wrapped zero, and an unbounded one for timeout_ms 0 |
| UartTransfer.Budget | sw/hello_world/uart.c:597-598 | a countdown allows between 1 and 2^32 STATUS reads |
| UartTransfer.WaitLoopOutcome | sw/hello_world/uart.c:584-609 | 0 only after a read showing TX empty; -1 only after the whole budget of reads showed it busy |
| UartTransfer.WaitTxComplete | sw/hello_world/uart.c:584-609 | -1 for a null handle; otherwise the wait loop from its start count |
| UartSim.Init | sw/hello_world_sim/uart.c:21-24 | binds the handle with no register access |
| UartSim.RegRead | sw/hello_world_sim/uart.c:7-10 | one load from the register at the offset |
| UartSim.RegWrite | sw/hello_world_sim/uart.c:12-15 | one store to the register at the offset |
| UartSim.Configure | sw/hello_world_sim/uart.c:26-29 | CONFIG takes the given word, with no STATUS read after it |
| UartSim.GetStatus | sw/hello_world_sim/uart.c:31-34 | one STATUS read |
| UartSim.EnableValue | sw/hello_world_sim/uart.c:36-39 | IE becomes mask \| global exactly, whatever was enabled before |
| UartSim.EnableInterrupts | sw/hello_world_sim/uart.c:36-39 | one IE write of `EnableValue` |
| UartSim.DisableInterrupts | sw/hello_world_sim/uart.c:41-44 | IE is written 0, global enable included |
| UartSim.FifoClear | sw/hello_world_sim/uart.c:46-49 | FIFO_CLEAR takes the given word |
| UartSim.SimPutcOutcome | sw/hello_world_sim/uart.c:51-57 | putc queues exactly its byte as the newest TX byte, takes no RX byte |
| UartSim.Putc | sw/hello_world_sim/uart.c:51-57 | the spin on TX full then the TX_FIFO write |
| UartSim.SimGetcOutcome | sw/hello_world_sim/uart.c:59-65 | getc returns and removes the oldest RX byte and writes nothing |
| UartSim.Getc | sw/hello_world_sim/uart.c:59-65 | the spin on RX empty then the RX_FIFO read |
| UartSim.SimWriteOutcome | sw/hello_world_sim/uart.c:67-71 | write queues all bytes in order and nothing else |
| UartSim.Write | sw/hello_world_sim/uart.c:67-71 | the loop of puts over the first `len` bytes |
| UartSim.SimReadOutcome | sw/hello_world_sim/uart.c:73-77 | read returns exactly `n` bytes, those it took from RX, in order |
| UartSim.Read | sw/hello_world_sim/uart.c:73-77 | the buffer's first `len` places hold the bytes read, the rest unchanged |
| UartSim.TryGetc | sw/hello_world_sim/uart.c:79-85 | one STATUS read; 0 leaving `*out` alone when RX is empty, else 1 with the RX byte stored |
| UartSim.TryGetcOutcome | sw/hello_world_sim/uart.c:79-85 | 1 and the oldest RX byte (removed), or 0 after one read that showed RX empty |
| TimerHw.RegAt | sw/hello_world_sim/timer.h:9-13 | every register offset names the register at that offset |
| TimerHw.LoadStep | sw/hello_world_sim/timer.h:9-24 | reads log themselves; STATUS shows the next scheduled value and drops it; COUNTER reads 0 while RESET is held |
| TimerHw.WriteThenReadBack | sw/hello_world_sim/timer.h:9-13 | CTRL, PRESCALER and THRESHOLD read back what was written |
| Timer.RegRead | sw/hello_world/timer.c:7-10 | one load from the register at the offset |
| Timer.RegWrite | sw/hello_world/timer.c:12-15 | one store to the register at the offset |
| Timer.Init | sw/hello_world/timer.c:21-24 | binds the handle with no register access |
| Timer.RunCtrl | sw/hello_world/timer.c:38-42 | the release value has RESET clear, IE iff the interrupt was asked for, no other bit |
| Timer.StartOutcome | sw/hello_world/timer.c:26-43 | CTRL=RESET, PRESCALER, THRESHOLD, one STATUS read, then CTRL=RunCtrl; the timer runs with the given settings |
| Timer.Start | sw/hello_world/timer.c:26-43 | the start register sequence |
| Timer.Stop | sw/hello_world/timer.c:45-48 | one CTRL write of RESET |
| Timer.StopHoldsCounter | sw/hello_world/timer.c:45-48 | a stopped timer has IE off and its counter reads 0 |
| Timer.GetCounter | sw/hello_world/timer.c:50-53 | one COUNTER_VALUE read |
| Timer.GetStatus | sw/hello_world/timer.c:55-58 | one STATUS read |
| Timer.ThresholdReached | sw/hello_world/timer.c:60-63 | 1 exactly when the one STATUS read shows the threshold bit |
| Timer.WithIrq | sw/hello_world/timer.c:65-70 | IE set, every other CTRL bit as read |
| Timer.WithoutIrq | sw/hello_world/timer.c:72-77 | IE clear, every other CTRL bit as read |
| Timer.IrqSwitchesAreIdempotent | sw/hello_world/timer.c:65-77 | enabling or disabling twice is the same as once |
| Timer.EnableOverridesDisable | sw/hello_world/timer.c:65-77 | enable after disable is enable alone |
| Timer.DisableOverridesEnable | sw/hello_world/timer.c:65-77 | disable after enable is disable alone |
| Timer.EnableIrq | sw/hello_world/timer.c:65-70 | CTRL read, then written with IE set |
| Timer.DisableIrq | sw/hello_world/timer.c:72-77 | CTRL read, then written with IE clear |
| Timer.DelayOutcome | sw/hello_world/timer.c:79-85 | waiting n periods makes only STATUS reads, exactly n of them show the threshold, the last one among them |
| Timer.DelayPeriods | sw/hello_world/timer.c:79-85 | the nested polling loops equal `Delay` |
| Timer.WaitOnePeriod | sw/hello_world/timer.c:81-82 | the inner spin uses up exactly one threshold period |
| TimerDriver.MasksMatchDevice | sw/hello_world/timer_driver.h:24-28 | the driver's masks are the device's STATUS and CTRL bits |
| TimerDriver.WithReset | sw/hello_world/timer_driver.c:55-60 | RESET set, every other bit kept |
| TimerDriver.WithoutReset | sw/hello_world/timer_driver.c:48-53 | RESET clear, every other bit kept |
| TimerDriver.IrqCtrlBits | sw/hello_world/timer_driver.c:36-46 | IE set iff `enable`, every other bit kept |
| TimerDriver.StopAfterStart | sw/hello_world/timer_driver.c:48-60 | stop after start restores reset with every other bit as before |
| TimerDriver.StartAfterStop | sw/hello_world/timer_driver.c:48-60 | start after stop releases reset with every other bit as before |
| TimerDriver.RunSwitchKeepsIrq | sw/hello_world/timer_driver.c:48-60 | starting and stopping keep IE |
| TimerDriver.IrqSwitchKeepsReset | sw/hello_world/timer_driver.c:36-46 | the interrupt switch keeps RESET |
| TimerDriver.InitOutcome | sw/hello_world/timer_driver.c:3-14 | init is two CTRL read-modify-writes and touches nothing else |
| TimerDriver.InitHoldsReset | sw/hello_world/timer_driver.c:8 | after init the timer is held in reset |
| TimerDriver.InitMasksIrq | sw/hello_world/timer_driver.c:11 | after init the interrupt is off |
| TimerDriver.InitKeepsOtherBits | sw/hello_world/timer_driver.c:3-14 | init keeps every CTRL bit but RESET and IE |
| TimerDriver.Init | sw/hello_world/timer_driver.c:3-14 | returns the block at the base address after the init sequence |
| TimerDriver.SetPrescaler | sw/hello_world/timer_driver.c:16-19 | one PRESCALER write |
| TimerDriver.SetThreshold | sw/hello_world/timer_driver.c:21-24 | one THRESHOLD write |
| TimerDriver.GetPrescaler | sw/hello_world/timer_driver.c:26-29 | one PRESCALER read |
| TimerDriver.GetThreshold | sw/hello_world/timer_driver.c:31-34 | one THRESHOLD read |
| TimerDriver.ConfigRoundTrip | sw/hello_world/timer_driver.c:16-34 | after both setters both getters return the values set, in either order; CTRL and STATUS untouched |
| TimerDriver.EnableInterrupt | sw/hello_world/timer_driver.c:36-46 | CTRL read, then written with IE as asked |
| TimerDriver.Start | sw/hello_world/timer_driver.c:48-53 | CTRL read, then written with RESET clear |
| TimerDriver.Stop | sw/hello_world/timer_driver.c:55-60 | CTRL read, then written with RESET set |
| TimerDriver.StoppedCounterReadsZero | sw/hello_world/timer_driver.h:82-88 | after Timer_Stop the counter reads 0 |
| TimerDriver.StartedCounterCounts | sw/hello_world/timer_driver.c:48-53 | after Timer_Start the counter shows its schedule |
| TimerDriver.GetValue | sw/hello_world/timer_driver.c:62-65 | one COUNTER_VALUE read |
| TimerDriver.GetStatusAndClear | sw/hello_world/timer_driver.c:67-71 | one STATUS read; true iff it showed the threshold bit |
| AxiTimer.Offset | sw/hello_world/axi4_lite_timer.h:74-111 | every register is a word at an offset up to 0x1C |
| AxiTimer.OffsetsAreDistinct | sw/hello_world/axi4_lite_timer.h:74-111 | no two registers share an offset |
| AxiTimer.RegsLoad | sw/hello_world/axi4_lite_timer.h:137-152 | only a VALUE read changes the timer's state |
| AxiTimer.CounterRead | sw/hello_world/axi4_lite_timer.h:143 | a VALUE read shows the next scheduled count, or the last one once the schedule is used up |
| AxiTimer.WordOfBits | sw/hello_world/axi4_lite_timer.h:34-64 | the `reg` view of the bit fields of a CTRL word is the word |
| AxiTimer.BitsOfWord | sw/hello_world/axi4_lite_timer.h:34-64 | the `bits` view of a word built from fields is those fields |
| AxiTimer.FieldStepOutcome | sw/hello_world/axi4_lite_timer.h:161-186 | a bit-field store reads and writes that timer's CTRL only, changing that one field |
| AxiTimer.WithBitChangesOnlyThatField | sw/hello_world/axi4_lite_timer.h:161-186 | only the assigned field changes, the reserved bits stay |
| AxiTimer.EnableTimer | sw/hello_world/axi4_lite_timer.h:161-163 | ENABLE set by a bit-field store (timer 1: lines 231-233) |
| AxiTimer.DisableTimer | sw/hello_world/axi4_lite_timer.h:168-170 | ENABLE cleared by a bit-field store (timer 1: lines 238-240) |
| AxiTimer.SetDirection | sw/hello_world/axi4_lite_timer.h:176-178 | DIRECTION set iff count_up is nonzero (timer 1: lines 246-248) |
| AxiTimer.SetReload | sw/hello_world/axi4_lite_timer.h:184-186 | RELOAD set iff the argument is nonzero (timer 1: lines 254-256) |
| AxiTimer.Timer1SetSource | sw/hello_world/axi4_lite_timer.h:262-264 | timer 1's SOURCE set iff the argument is nonzero |
| AxiTimer.GetValue | sw/hello_world/axi4_lite_timer.h:220-222 | one VALUE read (timer 1: lines 302-304) |
| AxiTimer.ConfigureOutcome | sw/hello_world/axi4_lite_timer.h:195-201 | LOAD and COMPARE as given, DIRECTION, RELOAD and (timer 1) SOURCE as asked, ENABLE and reserved bits kept, other timer untouched, the two word writes first |
| AxiTimer.Timer0Configure | sw/hello_world/axi4_lite_timer.h:195-201 | the configure register sequence for timer 0 |
| AxiTimer.Timer1Configure | sw/hello_world/axi4_lite_timer.h:274-282 | the configure register sequence for timer 1, with SOURCE |
| AxiTimer.StartPeriodicOutcome | sw/hello_world/axi4_lite_timer.h:209-213 | after start_periodic the timer is enabled, reloading, counting as asked between LOAD and COMPARE; the other timer untouched |
| AxiTimer.Timer0StartPeriodic | sw/hello_world/axi4_lite_timer.h:209-213 | configure with reload, then enable |
| AxiTimer.Timer1StartPeriodic | sw/hello_world/axi4_lite_timer.h:291-295 | configure with reload and source, then enable |
| AxiTimer.MsCompareMatchesPeriod | sw/hello_world/axi4_lite_timer.h:316-319 | when the period in cycles fits 32 bits and is nonzero, COMPARE is one less than it |
| AxiTimer.MsCompareWrapsOnZero | sw/hello_world/axi4_lite_timer.h:316-319 | a clock below 1 kHz or a zero period wraps COMPARE to 0xFFFFFFFF |
| AxiTimer.Timer0SetupMsPeriodic | sw/hello_world/axi4_lite_timer.h:316-319 | starts timer 0 counting up from 0 to `MsCompare` |
| AxiTimer.CascadeOutcome | sw/hello_world/axi4_lite_timer.h:325-333 | both timers count up 0..0xFFFFFFFF, enabled and reloading; timer 1 counts timer 0's rollovers |
| AxiTimer.SetupCascaded64BitTimer | sw/hello_world/axi4_lite_timer.h:325-333 | the cascade register sequence |
| AxiTimer.DisableAllOutcome | sw/hello_world/axi4_lite_timer.h:338-341 | both timers stopped, every other field and register as before |
| AxiTimer.TimerDisableAll | sw/hello_world/axi4_lite_timer.h:338-341 | the two disables |
| AxiTimer.Compose64Splits | sw/hello_world/axi4_lite_timer.h:360 | the high and low words come back out of the 64-bit value |
| AxiTimer.Compose64OfHalves | sw/hello_world/axi4_lite_timer.h:360 | every 64-bit value is its halves composed |
| AxiTimer.ReadTripleOutcome | sw/hello_world/axi4_lite_timer.h:353-357 | one pass reads TIMER1, TIMER0, TIMER1 and changes no setting |
| AxiTimer.Read64Outcome | sw/hello_world/axi4_lite_timer.h:349-361 | the loop ends on a pass whose two TIMER1 reads agree, after only counter reads, and returns that pass's halves |
| AxiTimer.Read64WhenHighStill | sw/hello_world/axi4_lite_timer.h:349-361 | with timer 1 still, one pass suffices and the high half is its value |
| AxiTimer.TimerGet64BitValue | sw/hello_world/axi4_lite_timer.h:349-361 | the do-while loop returns `Compose64` of `Read64`'s halves |
| AxiTimer.ElapsedUndoesAdvance | sw/hello_world/axi4_lite_timer.h:369-372 | the uint32 subtraction recovers an advance even across wrap-around |
| AxiTimer.ElapsedWithoutWrap | sw/hello_world/axi4_lite_timer.h:369-372 | without wrap it is the plain difference |
| AxiTimer.Timer0ElapsedTicks | sw/hello_world/axi4_lite_timer.h:369-372 | one TIMER0 read and its distance from the start |
| AxiTimer.WaitOutcome | sw/hello_world/axi4_lite_timer.h:382-383 | the busy wait makes only TIMER0 reads, all but the last under `delay` elapsed, the last at least `delay` |
| AxiTimer.DelayTicksOutcome | sw/hello_world/axi4_lite_timer.h:379-384 | the first read is the start, then the busy wait from it |
| AxiTimer.DelayZero | sw/hello_world/axi4_lite_timer.h:379-384 | a zero delay makes two reads in all |
| AxiTimer.Timer0DelayTicks | sw/hello_world/axi4_lite_timer.h:379-384 | the start read then the polling loop equal `DelayTicks` |
| MakeHex.Padding | sw/tools/makehex.py:7-9 | fewer than 4 bytes, bringing the length to a multiple of 4 |
| MakeHex.Padded | sw/tools/makehex.py:7-9 | the input as a prefix, zeros after it, a multiple of 4 below length + 4 |
| MakeHex.PaddedIsShortest | sw/tools/makehex.py:7-9 | no shorter multiple of 4 holds the input |
| MakeHex.PaddedAlignedIsSame | sw/tools/makehex.py:7-9 | an aligned input gets no padding |
| MakeHex.PadToWords | sw/tools/makehex.py:7-9 | the while loop yields `Padded` |
| MakeHex.HexLines | sw/tools/makehex.py:11-13 | one line per word, each eight lower-case hex digits |
| MakeHex.HexLinesAt | sw/tools/makehex.py:11-13 | line k is the word at bytes 4k..4k+3 |
| MakeHex.EmitLines | sw/tools/makehex.py:11-13 | the for loop yields `HexLines` |
| MakeHex.MakeHexImage | sw/tools/makehex.py:7-13 | the script maps the bytes to `HexLines(Padded(data))` |
| MakeHex.LineCount | sw/tools/makehex.py:11 | (length + 3) / 4 lines |
| MakeHex.LineIsWordBytesReversed | sw/tools/makehex.py:13 | a line is eight hex digits: bytes 3, 2, 1, 0 of its word, two digits each |
| MakeHex.LineByteOrder | sw/tools/makehex.py:11-13 | line k shows bytes 4k+3, 4k+2, 4k+1, 4k of the padded image |
| MakeHex.ParseLine | sw/tools/makehex.py:13 | the reference reader of one line: eight hex digits give a word below 2^32 |
| MakeHex.ParseLineOfLine | sw/tools/makehex.py:13 | a line reads back as the little-endian word it was printed from |
| MakeHex.WordBytesOfLittleEndian | sw/tools/makehex.py:12-13 | splitting that word little-endian gives the four bytes back |
| MakeHex.DecodeHexLines | sw/tools/makehex.py:11-13 | the lines of an aligned image decode to that image |
| MakeHex.Decode | sw/tools/makehex.py:11-13 | the reference reader of a whole output: four bytes per line |
| MakeHex.RoundTrip | sw/tools/makehex.py:7-13 | the output decodes to the padded image, whose first bytes are the input |

## Left out

- Real memory-mapped I/O, `volatile` and hardware timing: each register block is a device value with an access log. The hardware's own behaviour is a schedule of events or of the values successive reads show.
- The UART's serial timing and the level a threshold code stands for: those are hardware parameters (`rxLevel`, `txLevel`) of the device value.
- The hardware's STATUS clear-on-read and its self-clearing FIFO_CLEAR: the device model applies them; the drivers do not implement them.
- The unbounded spins terminate only under a precondition that the schedule eventually shows the awaited condition. These are the simulation driver's putc and getc, `uart_wait_tx_complete` with timeout 0, `timer_delay_periods` and `timer0_delay_ticks`. The model does not promise termination without that condition.
- The `nop` delay and the ms-to-count conversion inside `uart_wait_tx_complete` are not modelled. Only the countdown `timeout_ms * 1000` wrapped to 32 bits is.
- `uart_wait_condition` (sw/hello_world/uart.c:64-81) has no caller. It is not modelled.
- The callbacks' bodies and the race between the interrupt handler and the main loop: the handler reports each callback call as an event.
- The header that declares the full driver's enumerations is not part of this model. Baud codes follow the switch of `uart_get_baud_rate_value`; the other codes are taken as the usual values.
- The simulation firmware's own `uart.h` is not part of this model. Its driver is modelled over the register map of `sw/hello_world/uart.h`.
- `sw/hello_world/main.c`, `sw/hello_world_sim/main.c`, `sw/hello_world_sim/irq.h` and `sw/tools/upload.py`: demo programs, assembly wrappers and serial upload. None is modelled.
- makehex.py's command-line argument, file reading and printing: the model maps the bytes read to the lines printed. `Decode` is a reference reader of the output, in the way `$readmemh` reads it. It is not part of the script.
- UartTransfer.Write, UartTransfer.Puts, UartTransfer.Read, UartTransfer.Gets: the C functions return a `uint32_t` count converted to `int`. A count of 2^31 or more is implementation-defined in C, and negative in practice. The model returns the unbounded count, which matches C for every buffer shorter than 2^31 bytes.
- AxiTimer: unsigned 32-bit and 64-bit C arithmetic is modelled on integers with explicit wrap-around.
- AxiTimer: each CTRL bit-field assignment is modelled as a load of the whole CTRL word, then a store of the word with the field replaced. That matches a compiler's read-modify-write, but the model fixes that order.
- AxiTimer: timer 0 has no SOURCE field. Its bit 3 is passed through as reserved, and timer0_configure has no source argument.
- AxiTimer: the counting itself (direction, reload on the compare match, timer 1 advancing on timer 0's rollover) is not simulated. The VALUE reads come from the schedule, and the lemmas state the register settings that select that behaviour.
