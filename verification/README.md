# Verification of the data-acquisition cores and the programs around them

This project models the clocked stream machines of the repository, written in VHDL, and
the C and Python loops that depend on their arithmetic, and proves what they promise over
every run: every input stream, every pattern of stalls and gaps, every trigger time.

Each core is a module of the same shape.

* `Config` holds the generics and the ports that stay constant during a run, `Input` what
  the environment drives in one cycle, `Registers` the state. `Next` is the next-state
  logic, branch by branch.
* `After(cfg, ins)` is the state after a whole input history; where it is a `Sim`, it also
  records the beats that the handshakes have accepted and sent.
* The main lemmas speak about `After` for all histories. They compare the core with an
  independent reference (a slice of the input stream, a ring image, a function on
  sequences, a scheduler) and rest on inductive invariants.
* A class (`Scope`, `Writer`, `Core`, `Lut`) has the source's registers as fields and updates
  them as the source does. Its `Valid()` says that the fields are `After(past)` for the ghost
  history `past`, so every lemma about histories is a statement about the object.

The two programs with shared state follow the same idea. `PingPong.Recorder` holds the ring,
the buffer and the variables of both processes; its `Valid()` says that they are
`Run(origin, past)`, the events `past` since the state `origin` in which the current stream
began. `BitFile.File` is an open file with a cursor and has no history; its methods are
specified by what is left to read.

## Modules

* `Bits`: wrap-around, powers of two, C's `&` and shifts, `clogb2`.
* `Oscilloscope`: pre-trigger, wait and post-trigger machine with the trigger address latch.
* `RamWriter`: FIFO-to-AXI3 burst writer, its address and data channels, the RAM ring.
* `TriggeredCapture`: both cores, the width converter between them, and the C program that
  recomputes the window start and reads the ring.
* `PingPong`: hardware writer, polling child and sending parent over a ring and a two-half
  buffer, interleaved word by word.
* `HardwareStream`: the same processes with the writer core itself as the hardware, clocked
  between their steps.
* `LagoTrigger`: delay line, level detectors, latched words, record state machine.
* `Streams`, `Interpolator`, `Decimator`, `RateChain`: rate changes as sequence functions,
  the two cores, and the two wired together.
* `Packetizer`, `TlastGen`: packet framing, and the agreement of the two framers.
* `SinCosLut`, `SignalGen`: quarter-wave table pipeline and the phase accumulator.
* `CfgRegister`: byte-strobed register file with AXI4-Lite responses.
* `Itoa`, `BitFile`: two print/parse pairs with their in-place loops.

## Findings

* The length `t - t mod 64 + tot - pre + 2` of a capture holds for every trigger index
  exactly when `pre + 63 <= tot` (`Oscilloscope.CaptureLengthFormula`), and of every finished run
  exactly then (`Oscilloscope.RunLengthFormula`).
* With the program's settings exactly one 64-bit word stays behind in the writer's FIFO, and
  the last sample the program reads is the last one flushed (`TriggeredCapture.OneWordStranded`).
* No run reads an empty FIFO exactly when the almost-empty threshold is at least sixteen words,
  or the FIFO cannot rise above its threshold and the writer never starts
  (`RamWriter.UnderflowThreshold`).
* The program waits for the oscilloscope but not for the writer. Each of its reads is right as
  soon as the word it reads has been written (`TriggeredCapture.FlushedSampleIsRead`,
  `TriggeredCapture.ProgramReturnsWindow`), and before that returns the sample of one ring turn
  earlier or the old contents of the RAM (`TriggeredCapture.EarlyReadIsStale`); with a slave that is always ready, 37 cycles after
  the last status read are enough, while the stream goes on (`TriggeredCapture.ReadySlaveProgram`).
* Bursts keep inside 4 KB pages exactly when the base address is 128-byte aligned or the whole
  ring lies inside one page (`RamWriter.BurstsStayInPage`).
* The status word of a trigger record describes the last trigger before the word was loaded.
  That is the record's own trigger exactly when no other came in the twelve cycles after it
  (`LagoTrigger.OwnRequest`, `LagoTrigger.OwnStatus`); `LagoTrigger.LaterTriggerReported` is a
  run in which the only record carries the status word of a later trigger.
* The charge word of a scaler record counts cycles by elevens; no sample enters it
  (`LagoTrigger.ChargeCountsCycles`).
* After a reconnection the stream of the next client is gap-free in every timely run exactly
  when the child waits for the lower half, no copy is under way and no token is unread
  (`PingPong.NextStreamIsGapFree`). The server checks none of the three.
* A decimator or packetizer set to zero never accepts a beat (`Decimator.ReadyUnlessZero`,
  `Packetizer.OneShotPacket`, `TlastGen.FramersDifferAtOne`).
* The register file overwrites a read response that the master has not taken, as it does a write
  response (`CfgRegister.ReadsAccounted`, `CfgRegister.WritesAccounted`).
* Every register address selects a word only when the number of words is a power of two of at
  least two (`CfgRegister.AddressesReachWords`).
* The bit-file script accepts a payload that is shorter than announced
  (`BitFile.AcceptedShape`).

## Model

| member | source | states |
|---|---|---|
| Bits.Clogb2 | cores/axis_ram_writer_v1_0/axis_ram_writer.vhd:53-62 | The loop returns the number of bits that hold the value: below 2^bits and, unless zero, at least 2^(bits-1) |
| Bits.WrapStep | cores/axis_oscilloscope_v1_0/axis_oscilloscope.vhd:86 | Stepping a wrapped register is wrapping the stepped number, for any width |
| Bits.WrapIsRemainder | cores/axis_oscilloscope_v1_0/axis_oscilloscope.vhd:98 | Register wrap-around is the remainder of division by the modulus |
| Bits.AndOnes | projects/adc_recorder_trigger/adc-recorder-trigger.c:64 | Masking with n ones is taking the value modulo 2^n |
| Bits.AndShifted | projects/adc_recorder_trigger/adc-recorder-trigger.c:59 | Trailing zeros of a mask clear the low bits and leave the others to the rest of the mask |
| Oscilloscope.RunRefinesCapture | cores/axis_oscilloscope_v1_0/axis_oscilloscope.vhd:47-122 | For every run, registers and emitted beats are those of the reference capture: the valid beats since start, cut at the capture length, whatever the gaps and counter wraps |
| Oscilloscope.FinishedCapture | cores/axis_oscilloscope_v1_0/axis_oscilloscope.vhd:92-120 | A finished run forwarded every valid beat from start to stop, their number depends on the trigger index t > pre alone, and the status holds t mod 2^width above a clear enable bit |
| Oscilloscope.CaptureLengthFormula | cores/axis_oscilloscope_v1_0/axis_oscilloscope.vhd:96-112 | The number of beats is t - t mod 64 + tot - pre + 2 for every trigger index if and only if pre + 63 <= tot |
| Oscilloscope.TriggerAt | cores/axis_oscilloscope_v1_0/axis_oscilloscope.vhd:84-99 | The reference trigger index: the first beat past the pre-trigger span whose trigger flag is set |
| Oscilloscope.StopsExactly | cores/axis_oscilloscope_v1_0/axis_oscilloscope.vhd:92-112 | A started capture is over if and only if a trigger was taken and all the beats of the capture length have arrived |
| Oscilloscope.SomeCaptureFinishes | cores/axis_oscilloscope_v1_0/axis_oscilloscope.vhd:73-114 | For every configuration and every trigger index past the pre-trigger span there is a run that starts, triggers there and finishes |
| Oscilloscope.RunLengthFormula | cores/axis_oscilloscope_v1_0/axis_oscilloscope.vhd:92-120 | Every finished run forwards t - t mod 64 + tot - pre + 2 beats if and only if pre + 63 <= tot |
| Oscilloscope.EnableBit | cores/axis_oscilloscope_v1_0/axis_oscilloscope.vhd:73-116 | In every run the low status bit, which the program polls, is set exactly while a capture runs |
| Oscilloscope.RunsAreIndependent | cores/axis_oscilloscope_v1_0/axis_oscilloscope.vhd:73-114 | A capture started after an earlier one is over goes through the same states and forwards the same beats as one started after reset |
| Oscilloscope.Scope.Clock | cores/axis_oscilloscope_v1_0/axis_oscilloscope.vhd:47-122 | One clock edge on the registers in place keeps them equal to the run's state, and the output beat and status are those of the run |
| Oscilloscope.Scope.constructor | cores/axis_oscilloscope_v1_0/axis_oscilloscope.vhd:50-54 | Reset establishes the empty run |
| RamWriter.RunKeepsInv | cores/axis_ram_writer_v1_0/axis_ram_writer.vhd:82-171 | Every run with an ordered slave keeps the joint invariant of counters, both channels and the FIFO, among it that while wvalid is high the FIFO holds the rest of the burst |
| RamWriter.AddressDataPairing | cores/axis_ram_writer_v1_0/axis_ram_writer.vhd:83-170 | Address beats plus pending address equal finished bursts plus current burst; the k-th address beat has address (base + 8 * (16k mod 2^width)) mod 2^32 and ID k mod 2^idwidth, data beat n has ID n / 16 mod 2^idwidth, wlast is on every sixteenth beat only, data beats are a prefix of the accepted words and the FIFO is the rest |
| RamWriter.StableWhileWaiting | cores/axis_ram_writer_v1_0/axis_ram_writer.vhd:142-170 | A waiting address keeps its value and ID, a waiting data beat its word, ID and last mark |
| RamWriter.BurstsStayInPage | cores/axis_ram_writer_v1_0/axis_ram_writer.vhd:64-163 | No burst crosses a 4 KB boundary if and only if the base is 128-byte aligned or the whole ring lies inside one page |
| RamWriter.RingImage | cores/axis_ram_writer_v1_0/axis_ram_writer.vhd:151-170 | RAM is the ring image of the accepted words: word k is at ring place k mod 2^width until the writer comes around |
| RamWriter.UntouchedPlace | cores/axis_ram_writer_v1_0/axis_ram_writer.vhd:151-170 | A ring place that the writer has not reached in its first turn keeps what the RAM held before |
| RamWriter.DrainsToIdle | cores/axis_ram_writer_v1_0/axis_ram_writer.vhd:142-155 | From any reachable state, with both readies high, the writer is idle within a bounded number of cycles and at most the threshold of words behind |
| RamWriter.ReadyRunBounded | cores/axis_ram_writer_v1_0/axis_ram_writer.vhd:142-155 | A slave that holds both readies high is ordered, and the FIFO never passes the almost-empty threshold by more than two words |
| RamWriter.IdleRemainder | cores/axis_ram_writer_v1_0/axis_ram_writer.vhd:98-155 | An idle writer has flushed whole bursts and lacks at most sixteen accepted words |
| RamWriter.IdleStays | cores/axis_ram_writer_v1_0/axis_ram_writer.vhd:142-155 | An idle writer does nothing, whatever the readies, until a word arrives |
| RamWriter.UnderflowThreshold | cores/axis_ram_writer_v1_0/axis_ram_writer.vhd:98-149 | For every FIFO depth, no ordered run reads an empty FIFO if and only if the almost-empty threshold is at least sixteen or not below the depth |
| RamWriter.Writer.Clock | cores/axis_ram_writer_v1_0/axis_ram_writer.vhd:125-173 | One clock edge in place keeps the registers those of the run; in every cycle, stalled or not, the three channels show what the run has on them, and their transfers are those the run records |
| RamWriter.Writer.constructor | cores/axis_ram_writer_v1_0/axis_ram_writer.vhd:128-132 | Reset establishes the empty run |
| TriggeredCapture.Record | projects/adc_recorder_trigger/adc-recorder-trigger.c:52-68 | The program waits for the first poll with a clear enable bit, reads the status once more, and returns, in order, the 2^20 samples at the masked offsets, each from the RAM as it is at the time of that read |
| TriggeredCapture.WindowStartFound | projects/adc_recorder_trigger/adc-recorder-trigger.c:58-59 | From the latched counter, wrapped or not, the masked subtraction finds the ring place of sample t - t mod 64 - 1024 |
| TriggeredCapture.OffsetOfSample | projects/adc_recorder_trigger/adc-recorder-trigger.c:62-66 | Read i has the byte offset of sample start + i in the ring of 2^23 samples, half of the word 2^22 ring it lies in |
| TriggeredCapture.OneWordStranded | projects/adc_recorder_trigger/adc-recorder-trigger.c:38-42 | For any two runs joined by the packed capture, once the writer is idle its FIFO holds exactly the last word of the capture, and the flushed words end with the window the program reads |
| TriggeredCapture.FlushedSampleIsRead | projects/adc_recorder_trigger/adc-recorder-trigger.c:38-68 | End to end, for any two runs joined by the packed capture: once the capture has stopped, read i returns sample t - t mod 64 - 1024 + i of the stream as soon as its word has been written, for all i < 2^20 and any number of ring wraps |
| TriggeredCapture.ReadSeesLatest | projects/adc_recorder_trigger/adc-recorder-trigger.c:58-66 | Written or not, read i returns the latest stream sample at its ring place that has reached the RAM |
| TriggeredCapture.EarlyReadIsStale | projects/adc_recorder_trigger/adc-recorder-trigger.c:52-66 | A read before its word is written returns the sample of one ring turn earlier, or, at a place not reached in the first turn, what the RAM held before |
| TriggeredCapture.CapturedWindowIsRead | projects/adc_recorder_trigger/adc-recorder-trigger.c:38-68 | In particular all reads are right once the writer is idle |
| TriggeredCapture.NothingLost | projects/adc_recorder_trigger/block_design.tcl:254-294 | Clocked together with a FIFO that never fills, the writer accepts exactly the capture packed two beats to a word |
| TriggeredCapture.WiredSampleIsRead | projects/adc_recorder_trigger/block_design.tcl:254-294 | The end-to-end result for the wired cores, each seeing what the other drives: read i is right once its word has been written |
| TriggeredCapture.WiredCaptureIsRead | projects/adc_recorder_trigger/block_design.tcl:254-294 | The same for all reads once the wired writer is idle |
| TriggeredCapture.FinishedCaptureIsReadable | projects/adc_recorder_trigger/adc-recorder-trigger.c:52-68 | After a finished capture, over every continuation that starts no other one and keeps both readies high, whether the stream pauses or goes on: from a bounded number of cycles on all 2^20 reads return the captured window, whatever the RAM held before |
| TriggeredCapture.ReadySlaveSuffices | projects/adc_recorder_trigger/block_design.tcl:254-294 | A slave that is always ready is ordered, and a FIFO of more than threshold + 2 words then never fills |
| TriggeredCapture.ReadySlaveReadsBack | projects/adc_recorder_trigger/adc-recorder-trigger.c:52-68 | With a slave that is always ready, every finished capture is read back from the 37th cycle on, over every continuation that starts no other one |
| TriggeredCapture.ProgramReturnsWindow | projects/adc_recorder_trigger/adc-recorder-trigger.c:48-68 | The program's whole run against the wired cores: it waits exactly while all polls fall into the capture, and otherwise returns the captured window if each word has been written when it is read |
| TriggeredCapture.ReadySlaveProgram | projects/adc_recorder_trigger/adc-recorder-trigger.c:48-68 | With a slave that is always ready it is enough that the reads come 37 cycles after the second status read |
| PingPong.RunKeepsInv | projects/adc_test/server/adc-test-server.c:51-80 | Every timely interleaving keeps the invariant: ring and buffer hold the latest words, and sent words, tokens, copies and polls account for each other |
| PingPong.StreamIsGapFree | projects/adc_test/server/adc-test-server.c:63-137 | What has been sent is always a prefix of what the hardware wrote: nothing lost, repeated or torn |
| PingPong.BlockSent | projects/dac_player/adc-recorder.c:67-117 | The p-th block of half a ring that was sent is words p*H to (p+1)*H of the stream |
| PingPong.PollTakesFinishedHalf | projects/adc_test/server/adc-test-server.c:66-74 | A timely poll starts a copy if and only if the hardware has finished the half the child waits for, and one word more for the lower half |
| PingPong.BlockDelivered | projects/adc_test/server/adc-test-server.c:66-136 | When a half is done and both processes rest, one poll, copy, token and send deliver exactly the next half ring and return both processes to rest |
| PingPong.LateCopyTakesNewerWord | projects/adc_test/server/adc-test-server.c:73 | The speed hypothesis is sharp: a copy the writer has lapped stores the word from one ring turn later |
| PingPong.NextStreamIsGapFree | projects/adc_test/server/adc-test-server.c:110-137 | The stream of the next client is gap-free in every timely run if and only if the child waits for the lower half, is not copying, and no token is unread |
| PingPong.Recorder.HardwareWrite | cores/axis_ram_writer_v1_0/axis_ram_writer.vhd:151-160 | Storing a word in the ring array and stepping the position is the write event, appended to the history |
| PingPong.Recorder.Poll | projects/adc_test/server/adc-test-server.c:66-72 | The child's test and its updates of limit and offset are the poll event, appended to the history |
| PingPong.Recorder.CopyWord | projects/adc_test/server/adc-test-server.c:73-74 | One word of the memcpy in place, with the token after the last, is the copy event, appended to the history |
| PingPong.Recorder.ReadToken | projects/adc_test/server/adc-test-server.c:132 | Taking a token, which starts the send of the current half, is the read event, appended to the history |
| PingPong.Recorder.SendWord | projects/dac_player/adc-recorder.c:112-116 | One word of the send or write in place, switching halves after the last, is the send event; the word returned is what the history's sent words grow by |
| PingPong.Recorder.Reconnect | projects/adc_test/server/adc-test-server.c:110-130 | The reset for a new client starts a new stream from the state it finds; limit, offset, copy, tokens and buffer stay as they are |
| PingPong.Recorder.constructor | projects/adc_test/server/adc-test-server.c:51-54 | The recording starts at the model's start state with an empty history |
| HardwareStream.SystemRefinesProtocol | cores/axis_ram_writer_v1_0/axis_ram_writer.vhd:142-160 | With the writer core clocked between the processes' steps, each data beat is a write event of the next accepted word at the polled position, and every other cycle changes nothing they see |
| HardwareStream.SentIsAccepted | projects/adc_test/server/adc-test-server.c:63-137 | In every timely interleaving what has been sent is a prefix of the words the writer core has accepted |
| HardwareStream.DeployedFits | projects/adc_test/block_design.tcl:180-193 | The writer as configured has exactly the ring that the programs halve |
| LagoTrigger.DelayLine | cores/axis_lago_trigger_v1_0/axis_lago_trigger.vhd:161-182 | Place k of the delay line holds the sample of 12 - k cycles ago |
| LagoTrigger.PulseSeen | cores/axis_lago_trigger_v1_0/axis_lago_trigger.vhd:204-212 | A channel triggers if and only if its samples of 11 and 10 cycles ago are below its level and that of 9 cycles ago is not; the trigger is that of either channel |
| LagoTrigger.SubPulseSeen | cores/axis_lago_trigger_v1_0/axis_lago_trigger.vhd:245-263 | A channel sub-triggers if and only if its sample of 10 cycles ago reaches the sub-level, exceeds the one before and the one after, or equals the one after and exceeds the next, and the three of 10, 9 and 8 cycles ago are below the trigger level |
| LagoTrigger.RunOnSchedule | cores/axis_lago_trigger_v1_0/axis_lago_trigger.vhd:303-398 | With a ready sink the state machine is always where the reference scheduler puts it, showing the scheduled word |
| LagoTrigger.ReadyOutput | cores/axis_lago_trigger_v1_0/axis_lago_trigger.vhd:303-401 | In every run with a ready sink the ready output is high exactly between records after the first and while the samples of a trigger record are sent |
| LagoTrigger.EmittedIsRecords | cores/axis_lago_trigger_v1_0/axis_lago_trigger.vhd:303-403 | The transferred words are the words of the scheduled records, one record after the other |
| LagoTrigger.ScheduledCaused | cores/axis_lago_trigger_v1_0/axis_lago_trigger.vhd:312-326 | Each record was asked for in its cycle and no stronger request was there: PPS over trigger over sub-trigger |
| LagoTrigger.ParseInvertsConcat | cores/axis_lago_trigger_v1_0/axis_lago_trigger.vhd:147-273 | Any sequence of whole records of the three shapes parses back uniquely from the concatenated words |
| LagoTrigger.RecordGrammar | cores/axis_lago_trigger_v1_0/axis_lago_trigger.vhd:147-398 | Whenever the emitter rests, the words sent are whole tagged records and parse into exactly the scheduled ones |
| LagoTrigger.RecordContents | cores/axis_lago_trigger_v1_0/axis_lago_trigger.vhd:147-273 | Every word of every record: samples, status, counter, peaks, cycle count and PPS data, each latched word from the last request of its kind before it was loaded, never one before the record's own |
| LagoTrigger.PpsRecord | cores/axis_lago_trigger_v1_0/axis_lago_trigger.vhd:147-156 | Word by word, the ten words of a PPS record: all ones, then tag 3 with codes 0 to 4, the time stamp with code 0, the trigger level of channel A with codes 1 to 3 and, behind a place number, with code 4 |
| LagoTrigger.OwnRequest | cores/axis_lago_trigger_v1_0/axis_lago_trigger.vhd:214-273 | Word j of a record describes the record's own request if and only if no later request of its kind came before the word was loaded |
| LagoTrigger.OwnStatus | cores/axis_lago_trigger_v1_0/axis_lago_trigger.vhd:214 | The status word of a trigger record is its own trigger's if no other pulse came in the next twelve cycles, and only then when their time stamps differ from its own |
| LagoTrigger.LaterTriggerReported | cores/axis_lago_trigger_v1_0/axis_lago_trigger.vhd:214 | In a concrete run of 23 cycles the only record starts in cycle 9 and carries the status word of the trigger in cycle 12 |
| LagoTrigger.ChargeCountsCycles | cores/axis_lago_trigger_v1_0/axis_lago_trigger.vhd:265-266 | In every run both charge registers are eleven times the number of cycles, modulo 2^14 |
| LagoTrigger.DecodeStatusWord | cores/axis_lago_trigger_v1_0/axis_lago_trigger.vhd:214 | Time stamp and the two channel flags are recovered from a status word |
| LagoTrigger.DecodePairWord | cores/axis_lago_trigger_v1_0/axis_lago_trigger.vhd:272 | Both signed peak samples are recovered from a scaler word |
| LagoTrigger.TriggerSamples | cores/axis_lago_trigger_v1_0/axis_lago_trigger.vhd:161-341 | The first twelve words of a trigger record decode to consecutive input samples from eleven cycles before the trigger cycle |
| LagoTrigger.TriggerPlacement | cores/axis_lago_trigger_v1_0/axis_lago_trigger.vhd:161-341 | In every trigger record some triggering channel has its first two words below its level and its third at or above it |
| LagoTrigger.CounterWord | cores/axis_lago_trigger_v1_0/axis_lago_trigger.vhd:214-220 | After the first pulse the counter word is tag 2 above the number of trigger pulses in earlier cycles minus one, modulo 2^30 |
| LagoTrigger.MissedTriggers | cores/axis_lago_trigger_v1_0/axis_lago_trigger.vhd:188-362 | From one trigger record to the next the counter word grows, modulo 2^30, by one plus the triggers without a record of their own between the cycles in which the two counter words were loaded; exactly so while at most 2^30 pulses were seen |
| LagoTrigger.Core.ClockFsm | cores/axis_lago_trigger_v1_0/axis_lago_trigger.vhd:303-398 | The case machine in place computes the model's next record state |
| LagoTrigger.Core.ClockLatches | cores/axis_lago_trigger_v1_0/axis_lago_trigger.vhd:188-273 | The detectors and latches in place compute the model's next latches |
| LagoTrigger.Core.Clock | cores/axis_lago_trigger_v1_0/axis_lago_trigger.vhd:123-403 | One clock edge in place keeps all registers those of the run, shows the ready, valid and data of the run and transfers what the run records |
| Streams.EveryNthAt | cores/axis_decimator_v1_0/axis_decimator.vhd:41-74 | The k-th kept beat is accepted beat k*n + n - 1, and exists if and only if that many were accepted |
| Streams.RepeatEachAt | cores/axis_interpolator_v1_0/axis_interpolator.vhd:53-66 | Copy j of accepted beat q is at place q*n + j of the repeated stream, and there are no other places |
| Streams.RoundTrip | cores/axis_interpolator_v1_0/axis_interpolator.vhd:53-66 | Keeping every n-th of a partly sent n-fold repetition gives a prefix of the original, all of it when complete |
| Interpolator.RefinesRepeatEach | cores/axis_interpolator_v1_0/axis_interpolator.vhd:53-66 | For any stalls the sent beats are a prefix of the accepted ones repeated cfg + 1 times, complete if and only if no beat is in flight; at most one is |
| Interpolator.StableWhileStalled | cores/axis_interpolator_v1_0/axis_interpolator.vhd:53-66 | While valid is high and ready low nothing changes |
| Interpolator.Core.Clock | cores/axis_interpolator_v1_0/axis_interpolator.vhd:38-66 | One clock edge in place keeps the registers those of the run, shows them on ready, valid and data in every cycle, and hands over what the run records |
| Decimator.RefinesEveryNth | cores/axis_decimator_v1_0/axis_decimator.vhd:41-78 | The kept beats, every (cfg+1)-th accepted one, are in order those that have left and the one pending; the words sent and the words lost are, each in order, those that left that way; the outputs are all the kept beats if and only if no capture landed on an unaccepted word |
| Decimator.ReadyUnlessZero | cores/axis_decimator_v1_0/axis_decimator.vhd:41-63 | The core takes beats from its second cycle on, if and only if cfg is not zero |
| Decimator.Core.Clock | cores/axis_decimator_v1_0/axis_decimator.vhd:41-78 | One clock edge in place keeps the registers those of the run, shows them on ready, valid and data in every cycle, and hands over what the run records |
| RateChain.SameBeats | cores/axis_decimator_v1_0/axis_decimator.vhd:42-76 | Wired together, the beats the interpolator sends are the beats the decimator takes |
| RateChain.RoundTripInOrder | cores/axis_interpolator_v1_0/axis_interpolator.vhd:53-66 | Interpolating and decimating by the same factor returns the inputs in order, all of them when nothing is in flight |
| RateChain.ReadySinkLosesNothing | cores/axis_decimator_v1_0/axis_decimator.vhd:69-74 | A sink that is always ready meets the hypothesis of the round trip |
| Packetizer.OneShotPacket | cores/axis_packetizer_v1_0/axis_packetizer.vhd:55-81 | At most cfg + 1 beats, tlast on the last alone, disabled for good after it, every consumed beat forwarded; none with cfg zero |
| Packetizer.ContinuousPackets | cores/axis_packetizer_v1_0/axis_packetizer.vhd:55-81 | Beat k (from zero) has tlast if and only if cfg + 1 divides k + 1, and the core stays enabled |
| Packetizer.Core.Clock | cores/axis_packetizer_v1_0/axis_packetizer.vhd:42-81 | One clock edge in place keeps the registers those of the run, gates ready and valid with the enable register, raises tlast at the last beat, and hands over what the run records |
| TlastGen.MarksEveryPacket | cores/axis_tlast_gen_v1_0/axis_tlast_gen.vhd:46-65 | For any handshakes beat k (from zero) has tlast if and only if the length divides k + 1, where a length port of zero stands for 2^width |
| TlastGen.FramersAgree | projects/rxchan16_test2/src/zynq_io.c:359-360 | For lengths of two or more, the generator set to L and a continuous packetizer set to L - 1 mark the same beats |
| TlastGen.OneShotAgrees | projects/adc_recorder/adc-recorder.c:38 | On the packet that a one-shot packetizer set to L - 1 forwards, the generator set to L marks the same beat, the last alone |
| TlastGen.FramersDifferAtOne | cores/axis_tlast_gen_v1_0/axis_tlast_gen.vhd:64 | At length one they differ: the generator marks every beat, the packetizer never forwards one |
| TlastGen.Core.Clock | cores/axis_tlast_gen_v1_0/axis_tlast_gen.vhd:46-65 | One clock edge in place keeps the counter that of the run, shows the mark in every cycle, and marks the beat as the run records |
| SinCosLut.PipelineIsWave | cores/axis_signal_gen_v1_0/sincos_lut_14.vhd:540-607 | For any address stream and table, the outputs are one wave function of the address three cycles ago, the cosine a quarter turn ahead |
| SinCosLut.WaveByQuarter | cores/axis_signal_gen_v1_0/sincos_lut_14.vhd:540-607 | The wave is the table upwards, the peak 8191, the table downwards, and then the same values negated modulo 2^14, for any table |
| SinCosLut.HalfTurn | cores/axis_signal_gen_v1_0/sincos_lut_14.vhd:578-605 | Values half a turn apart add up to zero modulo 2^14 |
| SinCosLut.MirrorAtPeak | cores/axis_signal_gen_v1_0/sincos_lut_14.vhd:545-582 | The wave is symmetric about its peak, and the peak is the constant 8191 that the table lacks |
| SinCosLut.Lut.Edge | cores/axis_signal_gen_v1_0/sincos_lut_14.vhd:540-607 | The three stages in place compute the model's next registers |
| SinCosLut.Lut.Clock | cores/axis_signal_gen_v1_0/sincos_lut_14.vhd:540-607 | One clock edge in place keeps the registers those of the address history |
| SignalGen.PhaseIsFrequencySum | cores/axis_signal_gen_v1_0/signal_gen.vhd:56-89 | For any history of frequency words the accumulator at cycle n is 35184 times the sum of the words in force up to cycle n - 3, modulo 2^50 |
| SignalGen.UnwrappedPhase | cores/axis_signal_gen_v1_0/signal_gen.vhd:56-89 | For any history, 2^50 times the number of carries out of the accumulator plus the accumulator is exactly 35184 times the sum of the words in force: no turn is lost or counted twice |
| SignalGen.ConstantFrequencyPhase | cores/axis_signal_gen_v1_0/signal_gen.vhd:78-89 | With a constant word f the accumulator is 35184 * f * (n - 3) modulo 2^50 |
| SignalGen.ConstantFrequencyShortfall | cores/axis_signal_gen_v1_0/signal_gen.vhd:78-89 | In every run with a constant word f, the turns counted by the accumulator's carries plus its fraction of the next never exceed the ideal f/256 Hz at 125 MHz and fall short of it by less than eleven parts per million, the three cycles of delay aside |
| SignalGen.OutputIsWave | cores/axis_signal_gen_v1_0/signal_gen.vhd:89-130 | A sample taken by a ready sink is the table wave, and the wave a quarter turn ahead, at the place 2^14 * phase / 2^50 of the phase of four cycles before |
| SignalGen.OutputIsLastWave | cores/axis_signal_gen_v1_0/signal_gen.vhd:111-130 | At every time the output is the wave at the place 2^14 * phase / 2^50 of the phase three cycles before the last cycle in which the sink took a sample |
| SignalGen.Core.Clock | cores/axis_signal_gen_v1_0/signal_gen.vhd:56-139 | One clock edge in place, the table included, keeps the registers those of the run |
| CfgRegister.SizeAddress | cores/axi_cfg_register_v1_0/axi_cfg_register.vhd:46-69 | The elaboration-time sizing gives the smallest address field that reaches the last word |
| CfgRegister.SelectedWord | cores/axi_cfg_register_v1_0/axi_cfg_register.vhd:93-98 | An address selects word address / 4 modulo 2^width: byte offsets and the bits above the field do not matter |
| CfgRegister.WriteNeedsBoth | cores/axi_cfg_register_v1_0/axi_cfg_register.vhd:88-126 | In every run a cycle without both write address and write data leaves all words alone and raises no response; a cycle with both raises one |
| CfgRegister.ByteIsLastWrite | cores/axi_cfg_register_v1_0/axi_cfg_register.vhd:88-105 | After any run each configuration byte is that of the last cycle with address and data valid whose address selected its word and whose strobe covered it, zero if there was none |
| CfgRegister.ReadReturnsWord | cores/axi_cfg_register_v1_0/axi_cfg_register.vhd:128-133 | A read returns the word as of its address cycle, whatever is written later, and is offered until the first ready cycle |
| CfgRegister.WritesAccounted | cores/axi_cfg_register_v1_0/axi_cfg_register.vhd:88-126 | Cycles with address and data valid are answered, pending or had their response replaced; answered plus pending is all of them if and only if the master never writes over a stalled response |
| CfgRegister.ReadsAccounted | cores/axi_cfg_register_v1_0/axi_cfg_register.vhd:128-142 | Accepted reads are answered, pending or had their response replaced; answered plus pending is all of them if and only if the master never reads over a stalled response |
| CfgRegister.AddressesReachWords | cores/axi_cfg_register_v1_0/axi_cfg_register.vhd:67-132 | Every word has an address; every address has a word if and only if the words fill the address field |
| CfgRegister.Core.Clock | cores/axi_cfg_register_v1_0/axi_cfg_register.vhd:88-144 | One clock edge in place keeps words and flags those of the run, is ready exactly when address and data are both valid, and offers the run's responses |
| Itoa.PrintParse | projects/gpio_led_test/gpio_led_test.c:529-560 | For every 32-bit value and radix 2 to 36, parsing the print gives the value back, signed in radix 10 and modulo 2^32 otherwise; a sign stands before negative values in radix 10 alone, and no nonzero value has a leading zero after it |
| Itoa.DigitsFit | projects/gpio_led_test/gpio_led_test.c:531-548 | A value of n bits prints as at most n digits in any radix |
| Itoa.FillScratch | projects/gpio_led_test/gpio_led_test.c:543-548 | The loop fills the scratch array with the digits, least significant first, and never leaves it |
| Itoa.CopyOut | projects/gpio_led_test/gpio_led_test.c:554-558 | The second loop copies the digits in reverse into the destination behind the sign, ends them with NUL and leaves the rest alone |
| Itoa.Itoa | projects/gpio_led_test/gpio_led_test.c:529-560 | A radix out of range returns null and writes nothing; otherwise the print and its NUL are in the caller's buffer, or in a new one of exactly that size, using at most 32 of the 33 scratch places |
| BitFile.FlipTwice | scripts/fpga-bit-to-bin.py:9-16 | Flipping is its own inverse on lengths divisible by four |
| BitFile.FlipAt | scripts/fpga-bit-to-bin.py:15-15 | Byte k of the flipped data is byte 4 * (k / 4) + 3 - k mod 4 of the data |
| BitFile.Flip32 | scripts/fpga-bit-to-bin.py:9-16 | The in-place loop computes that flip; any other length ends in the unpacker's exception |
| BitFile.LayoutBytes | scripts/fpga-bit-to-bin.py:28-50 | The layout the parser inverts, byte by byte: big-endian lengths, nine header bytes, the field "a", the design name, keyed records, "e" and a four-byte length |
| BitFile.EncodeParse | scripts/fpga-bit-to-bin.py:28-64 | For every header, design name and list of records with keys other than 'e', the parser terminates with the announced part of the tail |
| BitFile.PayloadRecovered | scripts/fpga-bit-to-bin.py:49-52 | A complete payload comes back exactly, whatever follows it |
| BitFile.EncodedOutput | scripts/fpga-bit-to-bin.py:49-54 | From any laid-out file to the output: the payload without the flag, the mirrored payload with it, an error with it for a length not divisible by four |
| BitFile.AcceptedShape | scripts/fpga-bit-to-bin.py:28-64 | Conversely, every accepted file has that layout, and the result is the announced part of its tail, shorter if the file is truncated |
| BitFile.RejectedFiles | scripts/fpga-bit-to-bin.py:30-47 | Which error: a file cut short in its first length, one not beginning with nine, one whose second field is not "a", one that ends with its records |
| BitFile.File.Read | scripts/fpga-bit-to-bin.py:30-46 | A read returns the next bytes, at most to the end, and moves the cursor past them |
| BitFile.File.ReadField | scripts/fpga-bit-to-bin.py:30-40 | A length-prefixed field is read from the cursor, or a short read reported |
| BitFile.ConvertRecords | scripts/fpga-bit-to-bin.py:45-64 | The loop over the tagged records terminates with the parsed payload, as it is without the flag and word by word mirrored with it, or the script's error |
| BitFile.Convert | scripts/fpga-bit-to-bin.py:28-64 | The script as a whole: without the flag the parsed payload as it is, with it the same bytes mirrored in every word of four, or the error it stops with, an odd length included |

## Assumptions

* Every core starts in its post-reset state and its constant ports do not change during a
  run. `cfg_data` fits the counter it is compared with.
* The writer's FIFO is an abstract queue whose almost-empty flag is high while it holds at
  most `threshold` words, the output word included.
* A slave is *ordered* if it takes a data beat while an address waits only in a cycle in
  which it also takes the address (`RamWriter.Ordered`).
* The end-to-end results assume one capture after reset (`Oscilloscope.RunsAreIndependent`
  says what later captures of the oscilloscope do), an ordered slave, a FIFO that is never full
  when a word arrives, and that each word has been written before it is read. An always-ready
  slave gives the second and third (`TriggeredCapture.ReadySlaveSuffices`) and, 37 cycles after
  the end of the capture, the last (`TriggeredCapture.ReadySlaveReadsBack`). The stream need
  not pause.
* The polls of `TriggeredCapture.ProgramReturnsWindow` come after the cycle that started the
  capture, and the second status read and the sample reads after the polls.
* The ring of the end-to-end results lies below 2^32, as the block design places it.
* The ping-pong results assume the timing in `PingPong.Timely`; polls and words are the
  events of an arbitrary interleaving. `PingPong.StreamIsGapFree` is about the first client;
  `PingPong.NextStreamIsGapFree` says when it carries over to the next.
* `HardwareStream` assumes the same timing and an ordered slave; its words are visible in RAM in
  the cycle in which the slave takes the data beat.
* The sink of the trigger core is always ready (`LagoTrigger.Legal`), because its state
  machine passes some words without looking at the ready input.

## Left out

- `axis_ram_writer` with a slave that takes data before the address, and `axis_lago_trigger`
  under backpressure: both are outside the hypotheses above.
- The short sensitivity list of the record state machine: the model is the synthesised
  next state, which depends on every signal the process reads. `s_axis_tvalid` is not
  read by that core.
- PingPong.StreamIsGapFree: copies and sends go word by word; a partial `send`, a
  closed pipe and a signal are not modelled.
- Itoa.Itoa: a failing allocation is not modelled, and the negation of the most negative
  value is taken as 2^31, as two's complement hardware computes it.
- CfgRegister.ReadReturnsWord: the data of a read that selects no word is unspecified
  (`None`), as the source leaves it.
- The contents of the sine table: any function of the table index.
- Clock-domain crossings, the delayed FIFO and register resets, and power-up values other
  than those of the sine table pipeline.
- FIFO36E1, FDRE and the width converter as vendor parts: modelled by what they are used
  for. The CIC and FIR filters, the channelizers, `gen_tonos` and the transform cores are
  not part of this model.
- `axis_trigger`, `axis_constant`, `axis_zeroer`, `axis_variable`, `axis_counter`,
  `axi_sts_register`, clock dividers and pin adapters: too simple to add a property.
- Memory mapping, device files, sockets, pipes, signals, sleeps, argument parsing and
  printed messages of the C and Python programs.
- The DMA programs, the kernel module, the lock-in project and the other programs of
  `gpio_led_test`.
- Tcl, constraint, make and shell files, except the values the block design gives to the
  cores of the triggered recorder.
