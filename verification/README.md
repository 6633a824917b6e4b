# Verified model of the robot firmware and its flash tool

This project models, in Dafny, the stateful parts of the firmware of an underwater robot (a
coprocessor and an actuator board, both RP2040) and of the PC tool that flashes it, and proves
what they promise over whole runs.

`dafny verify dfyconfig.toml` checks everything.

## What is modelled

| part | modules |
|---|---|
| The coprocessor's I2C driver: a ring of pending requests, one transfer at a time, callbacks that enqueue again | `AsyncI2cSpec`, `AsyncI2cRecord`, `AsyncI2c` |
| The actuator board as I2C target: frame parser, request/response handshake cut at its critical sections, and the sender's frames | `ActuatorProtocol`, `I2cTargetSpec`, `I2cTargetProofs`, `I2cTargetExchange`, `I2cTarget` |
| Both checksums, down to polynomial division | `Parity`, `ByteCode`, `Crc8`, `Crc16` |
| The lossy output buffer of the USB console | `RingBuffer`, `StdioUsb` |
| The flash loader: UF2 blocks, the range map, coalescing, sector-wise erase and write, verification | `RangeMap`, `Uf2`, `FlashLoader`, `Uf2Writer` |
| Kill switches, the lock on software kills, thrusters and the kill report of the coprocessor | `KillSwitch`, `KillSwitchLibrary`, `KillWatch`, `CoproSafety`, `CoproWatch`, `CoproBoard` |
| Claw, droppers and torpedoes of the actuator board | `ActuatorBoardSpec`, `ActuatorBoardProofs`, `ActuatorBoardWatch`, `ActuatorBoard` |
| Both together: what a frame means, its execution, and the result that goes back | `Bytes`, `CommandCoding`, `ActuatorSystem` |
| The chain of commands that brings the board's timings up to date | `TimingSync`, `TimingValues` |
| The PIO programs of the torpedo coils and of DShot, on a cycle-accurate interpreter | `Pio`, `TorpedoPio`, `DshotPio` |
| The crash log that survives resets | `CrashLog`, `CrashRecorder` |

The pattern is the same throughout. A component is specified as a state machine on values: a
datatype for its state and one function per step. The imperative code is a class with the
source's fields, arrays and loops, whose methods are proved to do exactly what the step function
says to the abstract state. The promises are lemmas about all runs of the step functions. Where a
promise is about which answer a component gives, it is stated in terms of the inputs alone: the
bytes a FIFO handed over, the fields a file was written with, the room an endpoint offered, or a
watch that is kept over the events of a run without looking into the component.

What the hardware does is an input of each step: how much room a FIFO has, which interrupt
fires, what the host takes, what the clock says. One interrupt, alarm callback or main-loop call
is one step, except for the two calls of the actuator board's main loop that share state with
the I2C interrupt: these are cut at their critical sections, so that any interrupt may come
between.

## Where the code does less than one might think

Each of these is stated as a lemma, with the condition under which the code does meet the
promise.

- A queue of sixteen slots does not suffice for sixteen callers if callbacks enqueue again: the
  ended transfer still holds the bus while its callback runs (`CallbackRefused`,
  `SixteenFlagsOverflowInCallback`). Fifteen callers are safe (`FifteenFlagsFitInCallback`).
- The I2C interrupt handler takes an abort, or a stop with both counts of the remembered transfer
  met, for the end of that transfer even if it has ended before (`LateInterrupt`). A timeout that
  fires just before its transfer completes can bring such an abort (`TimeoutRace`). Without a late end
  each request ends exactly once, and each late end is one end too many (`RunKeeps`,
  `SurplusIsLateEnds`). The firmware is built with parameter assertions, so that a late stop panics
  at `Copro/src/drivers/async_i2c.c:314` instead, and the start of a request whose reservation a
  late end has taken away panics at line 158.
- The same handler also fills and drains for a transfer that has ended (`LateWrites`): it looks at
  the raw interrupt status, so that the stop that follows an abort writes more bytes of the failed
  request to the controller (`StopAfterAbortWrites`) and may store a byte in the buffer of a failed
  read (`StopAfterAbortReceives`), although nothing is ended by it.
- Bytes sent to the actuator board are judged by the length that their second byte asks for
  (`ReceivedExactlyWhen`). A frame whose corrupted id names a shorter frame can therefore be taken
  for a command, exactly under the conditions of `CorruptedFrameTaken`; `TimingTakenForFire` is such
  a frame. Every other corruption of one byte is rejected.
- Data sent to the actuator board while a response is due or under way can make the restart routine
  write a filler into it (`SpoiledRun`). Responses are sent cleanly if and only if this does not
  happen (`CleanUnlessSpoiled`). No command is ever lost by it (`I2cTargetProofs.RunKeeps`).
- A marker of the console that the host takes only in part leaves the buffer's mutex held, and the
  console silent, for good (`DrainLocks`, `MarkerCutShort`, `LockedForever`). The markers are sent with their
  terminating zero byte.
- If two coalesced ranges share a flash sector, the second erases what the first has put there,
  after it has been verified (`PayloadByteLoaded`, `LoadedExactlyWhen`, `SharedSectorErased`).
- The smallest torpedo time that is accepted is stored as zero and then counts as missing
  (`SmallestTimeIsUnset`).
- A kill report that fails leaves a newer state unreported until the next status of the board, with
  the refresh still due (`UnsuccessfulEndDropsRefresh`, `KilledAndUnreported`).
- The bit of a missing timing is cleared when its command is sent, so that a failed command loses
  it until the board reports it again (`FailedTimingIsForgotten`). The comment at
  `Copro/src/hw/actuator.c:187` says that bits are only cleared on success; the model follows the
  code. So is a torpedo time lost that arrives while that torpedo fires: the board refuses it, and the
  sender takes the refusal for an answer (`RefusedTimeIsForgotten`).

The comments of `dshot.pio` describe the repeat flag as bit 16; what decides is whether anything
is left below the sixteen top bits, and the sender sets bit 15. The model follows the code.

## Model

| member | source | states |
|---|---|---|
| `AsyncI2cSpec.RunKeeps` | Copro/src/drivers/async_i2c.c:150-353 | After every run of enqueues, timeouts and interrupts, which may come in any state, the books are in order if and only if no interrupt has ended a transfer when none was on the bus. In order means: the accepted requests are, in order, the ended ones, the one on the bus and the queued ones; a flag is set exactly while its request is outstanding; idle means an empty queue; no alarm without a transfer; words and bytes of the transfer are as far as they should be |
| `AsyncI2cSpec.SurplusIsLateEnds` | Copro/src/drivers/async_i2c.c:180-353 | In every run the ends, with the transfer under way, exceed the starts by exactly the number of such late ends: without them each request ends exactly once |
| `AsyncI2cSpec.LateInterrupt` | Copro/src/drivers/async_i2c.c:206-337 | An interrupt that finds no transfer on the bus, idle or reserved, ends a transfer again, and so puts the books out of order, if and only if it brings an abort, or a stop with both counts of the remembered transfer met |
| `AsyncI2cSpec.LateWrites` | Copro/src/drivers/async_i2c.c:242-302 | Such an interrupt leaves the command register and the buffer of the remembered request alone if and only if no fill has room and something left to write and no drain has bytes, whether it ends anything or not |
| `AsyncI2cSpec.StopAfterAbortWrites` | Copro/src/drivers/async_i2c.c:242-261 | It happens: the stop that follows an abort makes the handler write on for the request that has failed, with the driver idle, no flag set and the books in order |
| `AsyncI2cSpec.StopAfterAbortReceives` | Copro/src/drivers/async_i2c.c:296-302 | It happens: a byte goes into the buffer of a read that has failed and whose flag is clear |
| `AsyncI2cSpec.TimeoutRace` | Copro/src/drivers/async_i2c.c:130-137 | It happens: a transfer completes between its timeout and the abort that the timeout asked for, and the abort ends it a second time |
| `AsyncI2cSpec.IdleHasEndedAll` | Copro/src/drivers/async_i2c.c:339-352 | After a run without a late end an idle driver has ended every accepted request exactly once and in acceptance order; all flags are clear, no alarm is left; completed transfers are whole, and of failed ones a beginning was written and no more received than asked for |
| `AsyncI2cSpec.StopKeeps` | Copro/src/drivers/async_i2c.c:289-337 | A stop condition moves on to the receive stage, completes only when both counts are met, or is ignored; the books stay in order, whatever the callback enqueues |
| `AsyncI2cSpec.StartKeeps` | Copro/src/drivers/async_i2c.c:150-173 | Starting the oldest request keeps the books, with the alarm scheduled and the right first stage |
| `AsyncI2cSpec.AcceptKeeps` | Copro/src/drivers/async_i2c.c:425-451 | The critical section of an enqueue keeps the books: an idle bus is reserved, otherwise the request goes to the end of the queue, or is refused when the queue is full |
| `AsyncI2cSpec.FillTxSends` | Copro/src/drivers/async_i2c.c:80-90 | Whatever room there is, the data bytes are written in order, STOP on exactly the last |
| `AsyncI2cSpec.FillReadsReads` | Copro/src/drivers/async_i2c.c:112-122 | Whatever room there is, the read commands are written one per byte asked for, STOP on exactly the last |
| `AsyncI2cSpec.BytesFit` | Copro/src/drivers/async_i2c.c:262-302 | Received bytes never run past the length of the request, whatever the stage |
| `AsyncI2cSpec.SixteenFlagsFit` | Copro/src/drivers/async_i2c.c:413-433 | Callers that share at most sixteen flags, each enqueued only while clear, never find the queue full between interrupts (pigeonhole over the active slot and fifteen entries) |
| `AsyncI2cSpec.CallbackRefused` | Copro/src/drivers/async_i2c.c:331-333 | An enqueue from a callback is refused if and only if fifteen requests wait, because the ended transfer still holds the bus |
| `AsyncI2cSpec.FifteenFlagsFitInCallback` | Copro/src/drivers/async_i2c.c:331-333 | With at most fifteen flags the enqueue of a callback always finds room |
| `AsyncI2cSpec.SixteenFlagsOverflowInCallback` | Copro/src/drivers/async_i2c.c:413-456 | With sixteen flags there is a run of rule-abiding callers in which the enqueue of a callback is refused |
| `AsyncI2cRecord.ReceivedIsDelivered` | Copro/src/drivers/async_i2c.c:262-302 | In every run the transfer under way has received exactly what the interrupts have taken out of the receive FIFO since it was started, in that order, and each ended transfer what had been taken out by its end |
| `AsyncI2cRecord.InterruptDecides` | Copro/src/drivers/async_i2c.c:206-337 | With a transfer on the bus: an interrupt fails it exactly on an abort; a stop with all bytes sent moves to the receive stage, or completes it exactly when all answers are in; otherwise it goes on, and the bytes sent and read commands queued are the smaller of what is left and what room was offered |
| `AsyncI2cRecord.AlarmForEachTransfer` | Copro/src/drivers/async_i2c.c:130-166 | In every run the timeout alarm is scheduled from the start of each transfer until it ends or the alarm fires, and at no other time |
| `AsyncI2cRecord.CallbackTaken` | Copro/src/drivers/async_i2c.c:425-451 | The enqueues of a callback are all taken, in order, as long as the ring has room for them |
| `AsyncI2cRecord.RequestCarriedOut` | Copro/src/drivers/async_i2c.c:150-353 | After any run that leaves the driver idle every valid request can be carried out, whatever the target answers: written in full, read in full, completed with exactly these bytes, idle again with the flag clear |
| `AsyncI2c.AsyncI2cDriver.FillTransmit` | Copro/src/drivers/async_i2c.c:80-90 | The loop writes what the specification says, and changes only the byte count |
| `AsyncI2c.AsyncI2cDriver.FillReceive` | Copro/src/drivers/async_i2c.c:112-122 | The same for the read commands |
| `AsyncI2c.AsyncI2cDriver.DrainReceive` | Copro/src/drivers/async_i2c.c:264-269 | The caller's buffer is as it was, but for the received bytes, in order, behind those that were there |
| `AsyncI2c.AsyncI2cDriver.StartRequest` | Copro/src/drivers/async_i2c.c:150-173 | Resets the record, schedules one alarm and starts the first stage |
| `AsyncI2c.AsyncI2cDriver.AcceptRequest` | Copro/src/drivers/async_i2c.c:425-451 | The critical section on the real ring of sixteen slots |
| `AsyncI2c.AsyncI2cDriver.PushEntry` | Copro/src/drivers/async_i2c.c:443-449 | The ring's contents grow by the request at the end |
| `AsyncI2c.AsyncI2cDriver.PopEntry` | Copro/src/drivers/async_i2c.c:341-347 | The ring gives up its oldest request, with the buffer that belongs to it |
| `AsyncI2c.AsyncI2cDriver.Enqueue` | Copro/src/drivers/async_i2c.c:417-456 | An enqueue refines its specification, started at once or queued |
| `AsyncI2c.AsyncI2cDriver.TimeoutFires` | Copro/src/drivers/async_i2c.c:130-137 | The timeout only marks the alarm as gone; the abort comes as an interrupt |
| `AsyncI2c.AsyncI2cDriver.RunCallback` | Copro/src/drivers/async_i2c.c:236-238 | Enqueues of a callback, whatever their number, act on the same record |
| `AsyncI2c.AsyncI2cDriver.FinishTransfer` | Copro/src/drivers/async_i2c.c:312-333 | Ends the active transfer: alarm cancelled, flag cleared, callback called |
| `AsyncI2c.AsyncI2cDriver.NextTransfer` | Copro/src/drivers/async_i2c.c:339-352 | Hands the bus to the oldest queued request or goes idle |
| `AsyncI2c.AsyncI2cDriver.HandleStop` | Copro/src/drivers/async_i2c.c:289-337 | The stop branch of the handler |
| `AsyncI2c.AsyncI2cDriver.HandleIrq` | Copro/src/drivers/async_i2c.c:180-353 | The whole interrupt handler refines its specification, in every stage; the caller's buffer ends up with the bytes taken from the FIFO, in order, behind those received before, and otherwise unchanged |
| `ActuatorProtocol.CmdSize` | lib/actuator_i2c_interface/include/actuator_i2c/commands.h:85-115 | Frame lengths by command id, 0 for unknown ids, all between the base length and the size of the receive buffer |
| `ActuatorProtocol.BuildFrame` | Copro/src/hw/actuator.c:163-167 | A frame with the checksum filled in last is valid |
| `ActuatorProtocol.ParserSound` | Actuator/src/drivers/async_i2c_target.c:195-251 | Soundness: a command is reported only if the bytes since the last first-byte flag have exactly the length their id dictates and a matching checksum; they are the command |
| `ActuatorProtocol.FrameReceived` | Actuator/src/drivers/async_i2c_target.c:195-251 | Completeness: a frame built by the sender arrives whole for every grouping of its bytes into interrupts |
| `ActuatorProtocol.ReceivedExactlyWhen` | Actuator/src/drivers/async_i2c_target.c:195-251 | For all bytes sent and all groupings: a command is received if and only if an interrupt ends at the length that the second byte asks for and the bytes up to there are a valid frame; they are the command |
| `ActuatorProtocol.CorruptedFrameTaken` | Actuator/src/drivers/async_i2c_target.c:242-251 | A frame with one corrupted byte is taken for a command if and only if the corrupted byte is the id, the new id names a shorter frame, an interrupt ends at that length, and the checksum matches there |
| `ActuatorProtocol.TimingTakenForFire` | lib/actuator_i2c_interface/include/actuator_i2c/commands.h:85-115 | It happens: a certain torpedo timing command, with its id corrupted from 7 to 6, is taken for the command to fire torpedo 1 |
| `I2cTargetProofs.RunKeeps` | Actuator/src/drivers/async_i2c_target.c:106-334 | For every interleaving of interrupts and main-loop steps: each received command is a valid frame and was delivered, once and in order of reception, or is the pending one; each delivered one was answered, once and in order, with the length its id dictates and a right checksum, but for the one being worked on; the queue holds a prefix of the posted response; the two panics are not reached, and no read is rejected |
| `I2cTargetProofs.HeldReadAnswered` | Actuator/src/drivers/async_i2c_target.c:170-189 | No read request is forgotten: it holds the bus for at most eight main-loop steps, whatever interrupts come between |
| `I2cTargetProofs.BufferQuiet` | Actuator/src/drivers/async_i2c_target.c:300-320 | The response buffer is not written from the posting of a response until the response is over |
| `I2cTargetProofs.CleanUnlessSpoiled` | Actuator/src/drivers/async_i2c_target.c:77-85 | Throughout every run from the start a waiting read stays held and the queue gets exactly the first bytes of the response, fillers only after the last, if and only if no data on the bus makes a restart write a filler while a read waits, or a response is posted or only partly queued |
| `I2cTargetProofs.SmoothUnlessSpoiled` | Actuator/src/drivers/async_i2c_target.c:77-85 | The same from any state that keeps the invariant and in which responses are being sent cleanly |
| `I2cTargetProofs.StepSmooth` | Actuator/src/drivers/async_i2c_target.c:191-256 | The same for a single step: that is the one way in which it stops |
| `I2cTargetProofs.SpoiledRun` | Actuator/src/drivers/async_i2c_target.c:252-255 | It happens: a run from the start in which data behind a held read makes the restart answer the read, so that the response follows one byte late |
| `I2cTargetProofs.CommandDelivered` | Actuator/src/main.c:67-68 | From the sender to the dispatch: a valid frame sent to an idle board is received, however its bytes are grouped and whatever interrupts and main-loop steps come between them, and is the next command delivered, unchanged, after at most four more main-loop steps |
| `I2cTargetProofs.ReceivedIsDelivered` | Actuator/src/drivers/async_i2c_target.c:281-298 | From any state: all that has been received is delivered after at most four more main-loop steps, whatever interrupts come between |
| `I2cTargetProofs.StepKeepsHandshake` | Actuator/src/drivers/async_i2c_target.c:281-334 | Every step keeps the match between the command phase and the place of the main loop, and a held read keeps someone who will answer it |
| `I2cTargetProofs.StepKeepsOrder` | Actuator/src/drivers/async_i2c_target.c:61-75 | Every step keeps the queued bytes a prefix of the posted response |
| `I2cTargetExchange.FrameAnswered` | Actuator/src/drivers/async_i2c_target.c:281-334 | A frame sent to an idle board can be read an answer to, of the right length and with its checksum, after at most seven more main-loop steps, unless that answer has been read to its end already; whatever comes between |
| `I2cTargetExchange.ReplyCarriesData` | Actuator/src/drivers/async_i2c_target.c:306-314 | The response that is posted is the data with which the dispatch has answered, behind its checksum, whatever interrupts come in between |
| `I2cTargetExchange.ReadEnds` | Actuator/src/drivers/async_i2c_target.c:141-156 | The end of the read of a response leaves the parser open for the next frame, with nothing delivered, answered or queued by it |
| `I2cTargetExchange.Conversation` | Actuator/src/drivers/async_i2c_target.c:106-334 | Any number of exchanges, each a frame, its answer and the end of the read: all frames are delivered and answered, in order, and the board is idle after each |
| `I2cTargetExchange.ResponseProgress` | Actuator/src/drivers/async_i2c_target.c:61-75 | While a response is read, the bytes of it that have been queued are the smaller of its size and the room offered so far |
| `I2cTargetExchange.RunPumped` | Actuator/src/drivers/async_i2c_target.c:61-75 | In every run a response that is queued in part keeps the transmit interrupt enabled |
| `I2cTargetExchange.ResetReboots` | Actuator/src/main.c:126-130 | A reset frame sent to an idle board is not answered and reboots it after at most five more main-loop steps |
| `I2cTarget.TargetDriver.FillTransmitQueue` | Actuator/src/drivers/async_i2c_target.c:61-75 | The loop queues as many response bytes as there is room for, in order, and sets the interrupt mask if and only if some are left |
| `I2cTarget.TargetDriver.ReadWord` | Actuator/src/drivers/async_i2c_target.c:201-234 | One word of the receive queue: stored inside the buffer, dropped, or the end of the transfer |
| `I2cTarget.TargetDriver.ReadGroup` | Actuator/src/drivers/async_i2c_target.c:200-235 | The receive loop refines the parser for every sequence of words |
| `I2cTarget.TargetDriver.CheckFrame` | Actuator/src/drivers/async_i2c_target.c:242-251 | A complete frame becomes a command if and only if its checksum matches |
| `I2cTarget.TargetDriver.OnRxFull` | Actuator/src/drivers/async_i2c_target.c:191-256 | The receive branch of the handler, with a filler at each restart that finds the queue starved |
| `I2cTarget.TargetDriver.OnRdReq` | Actuator/src/drivers/async_i2c_target.c:170-189 | The read-request branch: wait, fill or send a filler |
| `I2cTarget.TargetDriver.OnTxEmpty` | Actuator/src/drivers/async_i2c_target.c:158-168 | The transmit-empty branch, with the mask check |
| `I2cTarget.TargetDriver.OnRxDone` | Actuator/src/drivers/async_i2c_target.c:141-156 | The end of the read of a response leaves the board idle with the interrupt masked; at any other time nothing changes |
| `I2cTarget.TargetDriver.CopyCommand` | Actuator/src/drivers/async_i2c_target.c:281-285 | A command that waits is copied out whole, and nothing else changes |
| `I2cTarget.TargetDriver.StoreResult` | Actuator/src/main.c:72-83 | The dispatch writes its result behind the checksum and nothing else |
| `I2cTarget.TargetDriver.PostResponse` | Actuator/src/drivers/async_i2c_target.c:306-314 | Checksum, size and position of a response |
| `I2cTarget.TargetDriver.CommitResponse` | Actuator/src/drivers/async_i2c_target.c:316-322 | The second critical section tells whether a read was waiting |
| `I2cTarget.TargetDriver.RejectRead` | Actuator/src/drivers/async_i2c_target.c:328-332 | A read without a response is answered with a filler |
| `Crc8.TableCorrect` | lib/actuator_i2c_interface/crc8_calc.c:7-24 | Every entry of the table is the bit-by-bit remainder for the polynomial 0x07 |
| `Crc8.CalcRaw` | lib/actuator_i2c_interface/crc8_calc.c:26-35 | The table-driven loop computes the register for messages of every length |
| `Crc8.ChecksumIsRemainder` | lib/actuator_i2c_interface/crc8_calc.c:26-35 | The checksum is the remainder of the message polynomial, with the contribution of the initial value and the final exclusive or |
| `Crc8.SingleByteErrorDetected` | lib/actuator_i2c_interface/crc8_calc.c:26-35 | Every corruption of one byte changes the checksum, at every length |
| `Crc8.OddErrorDetected` | lib/actuator_i2c_interface/crc8_calc.c:26-35 | So does every odd number of flipped bits |
| `Crc16.TableCorrect` | lib/safety/safety.c:285-302 | Every entry of the table is the bit-by-bit remainder for the polynomial 0x1021 |
| `Crc16.CalcRaw` | lib/safety/safety.c:304-315 | The table-driven loop computes the register for messages of every length |
| `Crc16.ChecksumIsRemainder` | lib/safety/safety.c:304-315 | The checksum is the remainder of the message polynomial, with the contribution of the initial value |
| `Crc16.SingleByteErrorDetected` | lib/safety/safety.c:304-315 | Every corruption of one byte changes the checksum |
| `Crc16.OddErrorDetected` | lib/safety/safety.c:304-315 | So does every odd number of flipped bits |
| `ByteCode.RegisterIsRemainder` | lib/safety/safety.c:304-315 | For both widths: the register is the initial value shifted through plus the remainder of the message, by long division |
| `ByteCode.RegisterSeparates` | lib/safety/safety.c:304-315 | For both widths: messages that differ in one byte leave different registers |
| `RingBuffer.PositiveModulo` | lib/dual_serial_stdio_usb/stdio_usb.c:53-55 | The C remainder, corrected for negative dividends, is the Euclidean one |
| `RingBuffer.WriteKeepsLast` | lib/dual_serial_stdio_usb/stdio_usb.c:111-129 | For every ring size, index and length: a write leaves old contents plus input, cut to the last size-1 bytes, including wraparound and the case where the output index ends one past the last slot |
| `RingBuffer.RingDrain` | lib/dual_serial_stdio_usb/stdio_usb.c:81-91 | Draining removes exactly the prefix that was sent |
| `StdioUsb.RunExplained` | lib/dual_serial_stdio_usb/stdio_usb.c:57-177 | In every run what is on the wire plus what waits is what was written, with each lost stretch, none of them empty, replaced by one marker, in order; a marker cut short is accounted for |
| `StdioUsb.Lossless` | lib/dual_serial_stdio_usb/stdio_usb.c:134-177 | In a run at no point of which the overflow or the refusal flag is set, bytes on the wire followed by bytes still buffered are exactly what was printed |
| `StdioUsb.DrainLocks` | lib/dual_serial_stdio_usb/stdio_usb.c:57-78 | A drain leaves the ring's mutex held if and only if a due marker is cut short |
| `StdioUsb.MarkerCutShort` | lib/dual_serial_stdio_usb/stdio_usb.c:62-69 | It happens: a run of one overflow and one drain that ends with the mutex held |
| `StdioUsb.LockedForever` | lib/dual_serial_stdio_usb/stdio_usb.c:58-60 | After that nothing is ever sent or accepted again |
| `StdioUsb.RefusalMarked` | lib/dual_serial_stdio_usb/stdio_usb.c:94-103 | A step marks refused text exactly when it refuses some, and the mark goes only with its whole marker on the wire |
| `StdioUsb.Stdio.OutData` | lib/dual_serial_stdio_usb/stdio_usb.c:35-51 | Hands over the beginning of the text, as much as all polls together had room for, and stops short only at a poll that offers nothing |
| `StdioUsb.Stdio.SendRing` | lib/dual_serial_stdio_usb/stdio_usb.c:80-87 | Sends waiting text, oldest first, in at most two pieces, and stops short only at a poll that offers nothing |
| `StdioUsb.Stdio.TryHandleUnsent` | lib/dual_serial_stdio_usb/stdio_usb.c:57-92 | Markers first, then waiting text; unless the mutex was held before, all of it is on the wire if every poll has room, and else the last poll had none |
| `StdioUsb.Stdio.Store` | lib/dual_serial_stdio_usb/stdio_usb.c:117-129 | The wrapping copy |
| `StdioUsb.Stdio.Place` | lib/dual_serial_stdio_usb/stdio_usb.c:111-129 | Makes room and copies: the contents become the last size-1 bytes |
| `StdioUsb.Stdio.WriteUnsent` | lib/dual_serial_stdio_usb/stdio_usb.c:94-132 | The bounded queue as a refinement, refused while the mutex is held |
| `StdioUsb.Stdio.OutChars` | lib/dual_serial_stdio_usb/stdio_usb.c:152-177 | Direct sends, partial sends and buffering refine the specification; with the host connected, the mutexes free and room at every poll, the text is on the wire on return behind all that waited, and else the last poll had none |
| `StdioUsb.Stdio.SendOrKeep` | lib/dual_serial_stdio_usb/stdio_usb.c:165-171 | With nothing waiting, what the endpoint does not take goes into the ring, and it takes all if every poll has room |
| `StdioUsb.Stdio.LowPriorityWorker` | lib/dual_serial_stdio_usb/stdio_usb.c:134-145 | The background drain: nothing is left if every poll has room |
| `RangeMap.IntersectIsIntersection` | upload_tool/upload.cpp:123-132 | The clamping intersection is the set intersection |
| `RangeMap.RangeMap.FindOverlap` | upload_tool/upload.cpp:165-175 | The bounded search finds an overlap if and only if there is one, although the range test itself is not symmetric |
| `RangeMap.RangeMap.Insert` | upload_tool/upload.cpp:161-178 | Fails exactly on overlap or on a wrapped end, and otherwise adds just the new entry; the entries stay disjoint and ordered |
| `RangeMap.RangeMap.Get` | upload_tool/upload.cpp:179-193 | Finds what the map holds for an address, with the source's acceptance of the end of a range |
| `RangeMap.LookupCovered` | upload_tool/upload.cpp:179-193 | A covered address is found in the one entry that covers it |
| `RangeMap.LookupUncovered` | upload_tool/upload.cpp:189-191 | An uncovered address is not found, or found with nothing left to read |
| `RangeMap.Coalesce` | upload_tool/upload.cpp:822-840 | Terminates, keeps the covered set and leaves no two adjacent ranges |
| `Uf2.BuildMap` | upload_tool/upload.cpp:740-758 | Succeeds if and only if no accepted block wraps around and no two overlap, and then holds exactly the accepted blocks; `Uf2Writer.TakenExactlyWhen` says which are accepted |
| `Uf2Writer.TakenExactlyWhen` | upload_tool/upload.cpp:749-754 | Of a block laid out field by field the loader takes the address and the data if and only if all three magic numbers, the family with its flag, the page size and the main-flash flag are as they must be |
| `Uf2Writer.AllPagesFound` | upload_tool/upload.cpp:740-758 | In a file of pages, one block after the other, the loader finds every page in order and nothing else |
| `Uf2Writer.PageLoaded` | upload_tool/upload.cpp:879-927 | Disjoint pages that leave no gap within a flash sector are loaded, each byte to its address, whatever was there before |
| `Uf2Writer.LoadPages` | upload_tool/upload.cpp:740-961 | From pages to memory: overlapping pages are refused, disjoint pages of flash are loaded, and if they leave no gap within a sector each of their bytes is in place |
| `Uf2.PayloadFromBlock` | upload_tool/upload.cpp:740-758 | The byte the map yields for an address is the byte of the block that names that address |
| `Uf2.ReadSpan` | upload_tool/upload.cpp:399-410 | Reading a span succeeds exactly when it is covered throughout, and returns each address's own payload byte |
| `FlashLoader.Device.Write` | upload_tool/upload.cpp:366-379 | Refuses exactly what is not page-aligned in flash or lies in no memory; programming flash only clears bits |
| `FlashLoader.Device.ReadMemory` | upload_tool/upload.cpp:331-364 | Unaligned flash is read page by page and cut out |
| `FlashLoader.Loader.SectorBuffer` | upload_tool/upload.cpp:906-915 | Payload in place, zeros before and behind, exactly one sector long |
| `FlashLoader.Loader.WriteSector` | upload_tool/upload.cpp:906-919 | One sector becomes payload and zeros, every other byte stays |
| `FlashLoader.Loader.LoadFlashRange` | upload_tool/upload.cpp:904-926 | For every start, aligned or not, the loop ends and every touched sector holds payload and zeros, nothing else changes |
| `FlashLoader.Loader.LoadRamRange` | upload_tool/upload.cpp:920-924 | A range in RAM receives exactly its payload |
| `FlashLoader.Loader.VerifyRange` | upload_tool/upload.cpp:928-960 | Succeeds if and only if device and file agree on the whole range |
| `FlashLoader.CheckRanges` | upload_tool/upload.cpp:886-894 | Accepts exactly the ranges that lie in one writable memory, ends included |
| `FlashLoader.LoadFile` | upload_tool/upload.cpp:879-961 | Inconsistent files and bad ranges change nothing; any other file loads and verifies, and leaves the image of its ranges |
| `FlashLoader.PayloadByteLoaded` | upload_tool/upload.cpp:895-927 | A payload byte is in memory after the load, or zero if a later range shares its flash sector |
| `FlashLoader.LoadedExactlyWhen` | upload_tool/upload.cpp:895-927 | All payload is in place if and only if every byte that a later range erases is zero anyway |
| `FlashLoader.SharedSectorErased` | upload_tool/upload.cpp:895-919 | It happens: of two planned ranges in one sector the second erases a payload byte of the first |
| `FlashLoader.ImageWithoutSharedSectors` | upload_tool/upload.cpp:885-927 | If no sector holds parts of two ranges: payload at its addresses, zero in the rest of touched sectors, all else unchanged |
| `FlashLoader.BlockByteLoaded` | upload_tool/upload.cpp:740-927 | The same end to end: each byte of each UF2 block is at the address its block names |
| `FlashLoader.LastRangeWins` | upload_tool/upload.cpp:895-919 | Of the ranges that touch a sector only the last counts |
| `FlashLoader.FindBinaryStart` | upload_tool/upload.cpp:760-779 | The start of flash if covered, else the lowest start in SRAM, else in XIP SRAM, else 0 |
| `FlashLoader.SectorAligned` | upload_tool/picoboot_connection/picoboot_connection.h:56-106 | Sector boundaries within flash are valid transfer addresses |
| `KillSwitch.RefreshExact` | lib/safety/safety.c:128-164 | A tick makes the state: no enabled switch, or one that asserts, or one that timed out; the change time becomes the current time if the state changes, and stays otherwise |
| `KillSwitch.UpdatePrompt` | lib/safety/safety.c:166-177 | Once safety is active, an enabled switch that asserts kill has killed the robot |
| `KillSwitchLibrary.KillSwitches.AssertingKill` | lib/safety/safety.c:131-150 | The loop over the switches, with its early exit and its count, decides as specified |
| `KillSwitchLibrary.KillSwitches.RefreshKillSwitches` | lib/safety/safety.c:128-164 | The tick on the real switches; the board is told, and the time of the change noted, exactly when the state changes |
| `KillSwitchLibrary.KillSwitches.KillSwitchUpdate` | lib/safety/safety.c:166-177 | One switch is updated, the others stay; a kill of an initialized library is told at once |
| `KillSwitch.StrnEqualIsSameString` | Copro/src/tasks/ros.c:485-490 | The bounded comparison is equality of the two C strings |
| `KillSwitch.LockedNamesSender` | Copro/src/tasks/ros.c:498-501 | The locking frame then holds the sender's name, whatever it held before |
| `KillSwitch.MessageKeepsOwners` | Copro/src/tasks/ros.c:464-504 | Every kill message keeps the lock with the last asserter |
| `KillSwitch.ReleasedByOwner` | Copro/src/tasks/ros.c:483-503 | A software kill is released if and only if its most recent asserter releases it |
| `CoproSafety.RunKeepsOwners` | Copro/src/tasks/ros.c:464-504 | In every run in which only the physical switch is set directly, each software kill belongs to its last asserter |
| `CoproWatch.OffNeutral` | Copro/src/hw/esc_pwm.c:58-151 | In every run: a thruster off neutral means not killed, battery good, five seconds since the robot was last killed, enabled or initialized as the run itself shows it, no timeout being served, last accepted command at most one second old with the alarm pending for it, levels within range |
| `CoproWatch.ThrustersFollow` | Copro/src/hw/esc_pwm.c:88-143 | In every run the kill state and the level of every single thruster are what the events call for: what the switches were last told, which kill messages count, which commands count, and what stops the thrusters |
| `CoproWatch.RunAgrees` | lib/safety/safety.c:113-182 | In every run the switches, the names on their locks, the kill state, its time, the battery and timeout blocks and the thrusters agree with a watch over the events alone |
| `KillWatch.MustKillAgrees` | lib/safety/safety.c:128-164 | The robot must be killed if and only if no switch was ever told anything, or one was last told to assert, or one that has to be updated was last told more than half a second ago |
| `CoproSafety.EarlyReturnFindsNeutral` | Copro/src/hw/esc_pwm.c:96-115 | The early returns that have cancelled the alarm are reached only with all thrusters at neutral |
| `CoproSafety.KillStopsThrusters` | lib/safety/safety.c:113-177 | A kill stops the thrusters within the call; so do the timeout and a low battery |
| `CoproSafety.IdleLinkIsCurrent` | Copro/src/hw/actuator.c:372-386 | In every run: a report in flight that is out of date has the refresh flag set, and an idle link after a success has reported the current state |
| `CoproSafety.UnsuccessfulEndDropsRefresh` | Copro/src/hw/actuator.c:48-91 | Other endings leave the link idle even if the report was out of date and a newer state waits; the next status of the board repeats the report |
| `CoproSafety.KilledAndUnreported` | Copro/src/hw/actuator.c:376-385 | It happens: the robot is killed, the board was last told that it is not, the refresh is still due and no report is on its way |
| `CoproSafety.RunKeeps` | lib/safety/safety.c:113-182 | Every run keeps all of these together |
| `CoproBoard.Board.StopThrusters` | Copro/src/hw/esc_pwm.c:58-71 | All levels neutral and the alarm cancelled, or nothing before initialization |
| `CoproBoard.Board.SetLevels` | Copro/src/hw/esc_pwm.c:120-137 | Levels are set one by one; an invalid one stops them all |
| `CoproBoard.Board.UpdateThrusters` | Copro/src/hw/esc_pwm.c:88-143 | The command with its early returns and the new alarm is one step of the specification and keeps its invariant |
| `CoproBoard.Board.UpdateTimeout` | Copro/src/hw/esc_pwm.c:80-86 | The timeout leaves all thrusters at neutral and blocks them for a second |
| `CoproBoard.Board.SafetyTick` | lib/safety/safety.c:128-164 | The tick with its effect on thrusters and report is one step of the specification and keeps its invariant; the kill state is what the switches say, its time is noted when it changes, and a killed robot has all thrusters at neutral |
| `CoproBoard.Board.KillSwitchUpdate` | lib/safety/safety.c:166-177 | The update with its effect on thrusters and report is one step of the specification; a kill leaves all thrusters at neutral |
| `CoproBoard.Board.SoftwareKillCallback` | Copro/src/tasks/ros.c:464-504 | The callback with its three refusals and the lock is one step of the specification and keeps its invariant |
| `CoproBoard.Board.KillReportRefresh` | Copro/src/hw/actuator.c:600-613 | Sends the state, or notes that it must be sent again |
| `CoproBoard.Board.ReportDone` | Copro/src/hw/actuator.c:48-91 | The four endings of a report |
| `ActuatorBoardProofs.KilledIsOff` | Actuator/src/drivers/safety_interface.c:36-40 | In every run: killed means claw motor off, droppers off, no torpedo active or selected, coil program stopped, disarmed, no alarm pending |
| `ActuatorBoardProofs.KillTakesEffect` | lib/safety/safety.c:113-120 | All of that within the call that asserts the kill |
| `ActuatorBoardProofs.TickIsExact` | lib/safety/safety.c:667-676 | A tick makes the kill state what the switch says, with the same effect |
| `ActuatorBoardProofs.OneStopAlarmEach` | Actuator/src/actuators/claw.c:107-134 | In every run: a moving claw and a running dropper have exactly one pending stop alarm each, resting ones have none |
| `ActuatorBoardProofs.OneTorpedoAtATime` | Actuator/src/actuators/torpedo.c:268-295 | In every run: at most one torpedo is selected, the active one; it is armed and all its times are set |
| `ActuatorBoardProofs.FiredOncePerArming` | Actuator/src/actuators/torpedo.c:247-252 | In every run: each torpedo has fired at most once since the last arming |
| `ActuatorBoardProofs.InterruptedShotStaysFired` | Actuator/src/actuators/torpedo.c:345-368 | A shot cut short by a kill counts as fired |
| `ActuatorBoardProofs.FiresExactlyWhen` | Actuator/src/actuators/torpedo.c:254-298 | In every run, whatever happens next: a torpedo starts to fire if and only if it is the command to fire it and all conditions hold |
| `ActuatorBoardProofs.FiringIsUndisturbed` | Actuator/src/actuators/torpedo.c:163-165 | A shot is undisturbed: in every run without a kill and before the coil program ends, the same torpedo stays the active one, armed, with the same times and counted once |
| `ActuatorBoardProofs.SmallestTimeIsUnset` | Actuator/src/actuators/torpedo.c:137-172 | An accepted time is stored less the compensation; the smallest accepted time is stored as zero, which counts as not set |
| `ActuatorBoardProofs.ClawMovesForItsTime` | Actuator/src/actuators/claw.c:107-200 | The claw moves for exactly the time of its direction: in every run without a kill it goes on until then, whatever else happens, and once time has passed it has been stopped exactly then, in the position asked for |
| `ActuatorBoardProofs.DropperOnForItsTime` | Actuator/src/actuators/dropper.c:93-169 | A dropper is on for exactly its time: in every run without a kill it stays on until then, whatever else happens, and once time has passed it has been stopped exactly then and counted as dropped |
| `ActuatorBoardProofs.RunKeeps` | Actuator/src/main.c:67-141 | Every run of commands, ticks, alarms and interrupts keeps all of these together |
| `ActuatorBoardProofs.KillAllOff` | Actuator/src/drivers/safety_interface.c:36-40 | The fan-out of a kill switches everything off and leaves no alarm |
| `ActuatorBoardProofs.KilledExecute` | Actuator/src/main.c:72-136 | While killed no command switches anything on |
| `ActuatorBoardWatch.StatusFollows` | Actuator/src/main.c:72-136 | In every run the status and the settings of the board are what the commands, kills and alarms so far call for: kill state, claw position, droppers running and dropped, armed, firing, fired, and every time that was set |
| `ActuatorBoardWatch.ResultFollows` | Actuator/src/main.c:72-136 | After every run the result of any next command is what these events call for |
| `ActuatorBoard.Drivers.ClawOpen` | Actuator/src/actuators/claw.c:146-172 | All branches of the open command, each keeping the invariant of the board |
| `ActuatorBoard.Drivers.ClawClose` | Actuator/src/actuators/claw.c:174-200 | All branches of the close command, each keeping the invariant |
| `ActuatorBoard.Drivers.ClawSafetyDisable` | Actuator/src/actuators/claw.c:202-210 | A moving claw is stopped at an unknown position |
| `ActuatorBoard.Drivers.DropperDropMarker` | Actuator/src/actuators/dropper.c:136-169 | All branches of the drop command, each keeping the invariant |
| `ActuatorBoard.Drivers.DropperClearStatus` | Actuator/src/actuators/dropper.c:171-187 | The loop clears resting droppers and fails if one is running; the invariant is kept |
| `ActuatorBoard.Drivers.DropperSafetyDisable` | Actuator/src/actuators/dropper.c:189-201 | Running droppers are stopped and count as dropped |
| `ActuatorBoard.Drivers.TorpedoSetTimings` | Actuator/src/actuators/torpedo.c:137-172 | Checks and compensates a time; the invariant is kept |
| `ActuatorBoard.Drivers.TorpedoFire` | Actuator/src/actuators/torpedo.c:254-298 | All branches of the fire command, each keeping the invariant |
| `ActuatorBoard.Drivers.TorpedoArm` | Actuator/src/actuators/torpedo.c:300-323 | Arming resets the fired marks, once; the invariant is kept |
| `ActuatorBoard.Drivers.TorpedoDisarm` | Actuator/src/actuators/torpedo.c:325-343 | Refused while a torpedo fires; the invariant is kept |
| `ActuatorBoard.Drivers.TorpedoFiredCallback` | Actuator/src/actuators/torpedo.c:247-252 | The end of a shot keeps the invariant |
| `ActuatorBoard.Drivers.TorpedoSafetyDisable` | Actuator/src/actuators/torpedo.c:345-368 | The kill of a shot |
| `ActuatorBoard.Drivers.KillRobot` | Actuator/src/drivers/safety_interface.c:36-40 | The fan-out in its order leaves nothing on and no alarm |
| `ActuatorBoard.Drivers.KillSwitchUpdate` | lib/safety/safety.c:166-177 | A kill command leaves nothing on and no alarm, and every update keeps the invariant |
| `ActuatorBoard.Drivers.Tick` | lib/safety/safety.c:667-676 | A tick keeps the invariant; if the switch kills, nothing is on afterwards and no alarm is left |
| `ActuatorBoard.Drivers.AlarmCallback` | Actuator/src/actuators/claw.c:127-134 | A stop alarm, whenever it fires, stops its part and keeps the invariant |
| `ActuatorBoard.Drivers.Dispatch` | Actuator/src/main.c:72-136 | Each command reaches its driver, its result is what is answered, and the invariant is kept |
| `CommandCoding.FrameDecodes` | lib/actuator_i2c_interface/include/actuator_i2c/commands.h:34-115 | From sender to board: every command whose fields fit is read from its frame exactly as it was meant |
| `CommandCoding.ValidFrameDecodes` | Actuator/src/main.c:72-136 | The dispatch knows every valid frame; the reset alone is no command to the actuators |
| `ActuatorSystem.RunKeeps` | Actuator/src/main.c:67-141 | In every run of the whole board: the commands executed are, in order, what the delivered frames say, and every reply but a status report carries the result of its command |
| `ActuatorSystem.CommandExecuted` | Actuator/src/main.c:67-141 | A frame sent to an idle board is executed as the next command, with the meaning of its bytes, after at most five more main-loop steps, whatever comes between |
| `ActuatorSystem.BothExecuted` | Actuator/src/main.c:67-141 | Two frames one after the other, the answer to the first read to its end: both are executed, in order, with the meaning of their bytes, whatever comes between |
| `ActuatorSystem.KillFramesBothExecuted` | Actuator/src/main.c:120-124 | So two kill commands in a row are both executed |
| `ActuatorSystem.ResetReboots` | Actuator/src/main.c:126-130 | The reset frame is not executed as a command of the actuators, and reboots the board after at most five more main-loop steps |
| `ActuatorSystem.KillFrameStops` | Actuator/src/main.c:120-124 | The kill command sent to an idle board has everything off and no alarm left after at most five more main-loop steps, and all stays off until a later command releases the kill |
| `TimingSync.RunSettles` | Copro/src/hw/actuator.c:192-253 | In every run an idle sender whose last command did not fail has nothing left that it could send |
| `TimingSync.ChainSendsAll` | Copro/src/hw/actuator.c:192-242 | The chain of replies sends exactly one command for each missing timing that is known, in the order of the bits, and then is idle |
| `TimingSync.FailedTimingIsForgotten` | Copro/src/hw/actuator.c:185-200 | The bit is cleared when the command is sent, not when it succeeds: a failed timing is not sent again until it is asked for again |
| `TimingSync.CommandSets` | Actuator/src/actuators/torpedo.c:174-188 | A timing command clears exactly its own bits of what the board reports as missing, and is refused only for the torpedo that is firing, whose times are set |
| `TimingSync.ReportedTimingsArrive` | Copro/src/hw/actuator.c:410-417 | From report to board: with usable values and no failed transfer, once the chain set off by a report is over the board misses only timings whose value is not known, none if all are, whatever the board does, is commanded or reports meanwhile |
| `TimingValues.LastTimesAreHeld` | Copro/src/hw/actuator.c:185-253 | In every run that starts with nothing cached, in which no transfer fails and no timing is refused: when the sender is idle, the board holds for every slot the last value given |
| `TimingValues.RefusedTimeIsForgotten` | Actuator/src/actuators/torpedo.c:162-165 | A time that arrives is held by the board afterwards if and only if its torpedo is not firing; if it is, the board keeps its old time and the sender does not send the new one again by itself |
| `TimingSync.Sender.UpdateCommon` | Copro/src/hw/actuator.c:192-232 | Sends the command for the first missing timing that is known, and clears its bits |
| `TimingSync.Sender.UpdateMissingTimings` | Copro/src/hw/actuator.c:244-253 | Starts the chain unless it is under way |
| `TimingSync.Sender.OnReply` | Copro/src/hw/actuator.c:235-242 | The next command of the chain, or the end of it |
| `TimingSync.Sender.OnStatus` | Copro/src/hw/actuator.c:410-417 | A report adds to what is missing |
| `TimingSync.Sender.OnParameter` | Copro/src/hw/actuator.c:305-343 | A new value is cached and sent |
| `TorpedoPio.ProgHasFiveBursts` | Actuator/src/actuators/torpedo.pio:8-42 | The program consists of five fetch-and-count bursts, the interrupt and an endless loop |
| `TorpedoPio.Countdown` | Actuator/src/actuators/torpedo.pio:11-12 | A countdown takes one cycle more than the value it starts from |
| `TorpedoPio.BurstsRun` | Actuator/src/actuators/torpedo.pio:8-36 | After the first k bursts the trace is their wave |
| `TorpedoPio.CoilsDrivenExactly` | Actuator/src/actuators/torpedo.pio:8-42 | For all stored times: each coil is driven for exactly the commanded number of cycles with exactly the commanded delays between, and the interrupt comes only after all coils are off |
| `TorpedoPio.StaysOff` | Actuator/src/actuators/torpedo.pio:39-42 | Afterwards the coils stay off for good |
| `TorpedoPio.OneCoilAtATime` | Actuator/src/actuators/torpedo.pio:8-36 | Whatever is in the queue and however long the program has run, no cycle drives two coils |
| `DshotPio.FrameRuns` | Copro/src/hw/dshot.pio:22-50 | One pass sends the sixteen top bits of the word, eight cycles each, then the gap, and decides about repeating |
| `DshotPio.SentUntilReplaced` | Copro/src/hw/dshot.pio:22-50 | A word with the repeat flag is sent over and over, without limit, while no other is queued |
| `DshotPio.Repeats` | Copro/src/hw/dshot.pio:22-25 | With the flag the next frame is a queued word, else the same one |
| `DshotPio.WaitsForWord` | Copro/src/hw/dshot.pio:18-20 | Without it the line stays low until a word is queued |
| `DshotPio.DecodeFrame` | Copro/src/hw/dshot.pio:34-48 | A receiver that samples each bit in its middle gets the sixteen top bits, and what is left is zero exactly if the low half is |
| `DshotPio.FrameDecodes` | Copro/src/hw/dshot.c:65-93 | From call to wire: the wave decodes to the throttle, the telemetry bit and a matching check nibble, and repeats unless it was to be sent once |
| `DshotPio.SendInternal` | Copro/src/hw/dshot.c:65-93 | The word is built step by step as specified and appended to the queue |
| `CrashLog.LogAfterBoots` | lib/safety/safety.c:478-573 | After any number of boots from RAM without a valid log: the checksum is valid, the log newest first is exactly the last boots, at most 24, and the counters are the saturated numbers since the last clean boot |
| `CrashLog.BootRetains` | lib/safety/safety.c:500-566 | One more boot keeps all of that |
| `CrashLog.PrintedIsRecent` | lib/safety/safety.c:595-609 | The slots walked backwards hold the records newest first |
| `CrashLog.CorruptionDetected` | lib/safety/safety.c:481-498 | One corrupted byte anywhere in the retained data makes the next boot start a new log |
| `CrashLog.CleanBootKind` | lib/safety/safety.c:533-551 | A clean boot is recorded as the restart that was announced, by software or USB, or else as the last reset that the chip remembers, in the order power-on, run pin, debugger |
| `CrashLog.BootIndexes` | lib/safety/safety.c:494-501 | A boot indexes the log within its bounds if and only if it starts a new log or finds an index within it |
| `CrashLog.IndexBeyondLog` | lib/safety/safety.c:481-501 | The checksum alone does not exclude an index beyond the log |
| `CrashLog.CountsGrow` | lib/safety/safety.c:510-531 | The counters follow the history |
| `CrashLog.FirstBoot` | lib/safety/safety.c:494-501 | A boot that starts the log records itself in it |
| `CrashRecorder.Recorder.InitIfNeeded` | lib/safety/safety.c:479-498 | The log is cleared if and only if magic or checksum do not match |
| `CrashRecorder.Recorder.Count` | lib/safety/safety.c:510-531 | The four saturating counters |
| `CrashRecorder.Recorder.StoreEntry` | lib/safety/safety.c:500-553 | The entry of a crash or of a clean boot, which keeps the stale fields |
| `CrashRecorder.Recorder.ProcessLastReset` | lib/safety/safety.c:478-573 | A boot as a whole; a fault is raised exactly for a corrupted log or counted crashes at a watchdog reset |
| `CrashRecorder.Recorder.PrintCrashLog` | lib/safety/safety.c:595-609 | The printing loop terminates and prints each slot once, newest first |

## Left out

- Chained I2C requests and `nostop`: every caller leaves both unset, and the handler would call the follow-on request's callback (`Copro/src/drivers/async_i2c.c:325-333`). Requests of the model have neither.
- I2C interrupts before the first request: the record's request pointer is null then; the record of the model is empty.
- The assertions and panics of the I2C drivers: the model goes on as the code does without assertions.
- Register-level hardware: enable and disable loops, clock dividers, pin multiplexing, the RESTART bit of the first command word, interrupt masks of the coprocessor's driver. FIFO levels and pending interrupts are inputs of the steps instead.
- Panics on FIFO overflow and underflow: the runs are those in which the hardware does not report them.
- What the actuator board does once it has been told to reset: it reboots within the dispatch, and no step of the model follows.
- Preemption inside the refresh of the kill switches, the thruster update, the torpedo kill and the fill of the transmit queue: each is one step, although the code does not mask interrupts there.
- The contents of a status report: a status reply has its length and checksum, but its fields are not looked at.
- Exhaustion of the alarm pool: adding an alarm succeeds.
- The charge measurement of the torpedoes is floating point; whether they are charged is an input.
- Allocation of command slots (`Copro/src/hw/actuator.c:122-155`, whose scan reserves every free slot) and the public commands that use it; parameter names and types.
- The number and numbering of the coprocessor's kill switches come from a message package that is not part of this model; both are parameters.
- The constants of the UF2 format come from a header that is not part of this model; they are those of the published UF2 format and of the RP2040 family id.
- Files of 4 GiB and more, where the source's 32-bit position wraps; errors of the file system and of the USB connection; progress bars; rebooting the device.
- `remapped_memory_access`, the binary-info visitor and board detection of the flash tool.
- CrashRecorder.Recorder.ProcessLastReset: does not model retained RAM with a valid checksum but an entry index beyond the log, because the code then writes outside its array. `CrashLog.BootIndexes` says when it stays inside, `CrashLog.IndexBeyondLog` that the checksum does not; the boots themselves never leave such a log.
- A USB endpoint that takes less than the room it has just announced (`lib/dual_serial_stdio_usb/stdio_usb.c:42`): the loop of the source would go on polling.
- The text format of the printed crash log, and its 256-byte message buffer.
- DShot initialization, stop and timeout (`Copro/src/hw/dshot.c:95-130`): disabled on both robots.
- Sensors, battery and cooling tasks, ROS publishers, Ethernet transport, logging, command-line handling: input and output, or easy.
- FlashLoader.Device.ReadMemory: does not model reading ROM through a program in RAM, which the loader does not use for the memories it writes.
- The unstriped view of SRAM is a memory of its own in the model; in the device it shows the bytes of the striped one.
- Timings sent to the actuator board by anything but the chain of commands.
