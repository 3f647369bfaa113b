# IMUF9001 driver and STM32 PWM output bookkeeping, in Dafny

This project models two parts of the Betaflight flight-controller firmware and proves properties of them.

**The IMUF9001 gyro/accelerometer coprocessor driver.** The model covers, in `accgyro_imuf9001_betaflight.c`:

- the frame checksum of the STM32F4 CRC unit (`crc32.dfy`, `frames.dfy`);
- the two-phase handshake of `imuf9001SendReceiveCommand` (`imuf_driver.dfy`). The driver probes until the device answers "listening", then confirms until the device echoes the command;
- the device session (`imuf_session.dfy`):
  - identification with a firmware gate (`imuf9001Whoami`);
  - the reset sequence;
  - the parameter packing of `setupImufParams`;
  - the SETUP retries with reset and backoff (`imufSpiGyroInit`);
  - the calibration flag;
  - the detect, init and read entry points.

The same entry points have two other implementations, `adapter.c` (`imuf_adapter.dfy`) and `accgyro_imuf9001_stub.c` (`imuf_stub.dfy`). `imuf_facade.dfy` puts the three behind one interface (`Variant`) and states their differences side by side.

What the driver calls but does not implement is modelled as oracles in `platform.dfy`: the ready line, the SPI exchange, the reset pin, delays and `mpuGyroInit`. The ready line is a function from the poll number to its level. The link is either the file's own loopback (`memcpy` of TX into RX) or a device. Delays, pin writes and hook calls go into a ghost event trace instead of taking time.

**The motor and servo output bookkeeping of `pwm_output_hw.c`** (`pwm_output.dfy`). It covers:

- the `pwmMotors` and `servos` arrays, as Dafny arrays of records;
- `pwmMotorCount`, `useContinuousUpdate` and the device's vtable;
- the shutdown and update-complete loops;
- `motorPwmDevInit`:
  - its protocol switch;
  - timer allocation, as an oracle map;
  - the integer prescaler and period arithmetic;
  - the first-user-of-a-timer search behind `forceOverflow`;
- `pwmWriteServo` and `servoDevInit`.

Compare registers are optional integers, because `ccr` can be NULL. Timers are abstract identifiers. The calls into the timer HAL that matter are recorded in two logs: `configured` for `pwmOutConfig` and `forced` for `timerForceOverflow`.

Loops in the source are loops in the model. Each is proved against a specification function, such as `Handshake`, `Iterate`, `MotorPort`, `MotorConfigs`, `ServoAfter` or `ForcedTimers`. Lemmas then state the properties of those functions.

Three behaviours of the code worth noting:

- The confirming exchange sends the command frame rewritten to `IMUF_COMMAND_NONE` with its crc recomputed, not the original probe.
  - Consequence: over the loopback transport a call never returns 1 (`ImufDriver.HandshakeLoopback`).
- A confirmation attempt that gets an exchange but no echo does not fail the call. `attempt` is forced to 100, so the inner loop ends and the outer polling loop resumes, now sending the `IMUF_COMMAND_NONE` frame as its probe.
- The adapter's `imufReadAccData` reports a sample (true). The full driver's readers report none.

Every delay, ready-line read and exchange of a call is part of the methods' contracts: each method's trace is its old trace followed by the events a specification function lists (`ProbeEvents`, `AttemptEvents`, `ConfirmEvents`, `IterateEvents`, `HandshakeEvents`, `CallEvents`, `Backoff`). With the ready line low throughout, a call records exactly 5000 repetitions of a 1 ms wait followed by a low read (`Idle`).

`ImufDriver.ConfirmPhase` and `PwmOutput.TimingBounds` record two edge cases of the code:

- Once a listening acknowledgement has been seen, later probes keep sending the `IMUF_COMMAND_NONE` frame.
- A continuous period can be exactly 65536 ticks. `PwmOutput.PeriodReachesBound` gives clock 65.536 MHz at rate 1 kHz. `pwmOutConfig`'s `uint16_t` period parameter then receives 0. The model records that truncated value.

## Model

| member | source | states |
|---|---|---|
| Crc32.ChecksumSnoc | src/main/drivers/accgyro_imuf9001/accgyro_imuf9001_betaflight.c:62-68 | feeding one more word into the engine extends the checksum of the words before it by one Feed step |
| Crc32.OneWordChangeDetected | src/main/drivers/accgyro_imuf9001/accgyro_imuf9001_betaflight.c:62-68 | two equal-length word sequences that differ in exactly one word have different checksums |
| Crc32.ShiftNInjective | src/main/drivers/accgyro_imuf9001/accgyro_imuf9001_betaflight.c:54-56 | the 32 clocks after a data-register write are a bijection of the register contents |
| Crc32.FeedInjectiveInWord | src/main/drivers/accgyro_imuf9001/accgyro_imuf9001_betaflight.c:54-56 | from the same register value, different data words give different register values |
| Crc32.FeedInjectiveInRegister | src/main/drivers/accgyro_imuf9001/accgyro_imuf9001_betaflight.c:54-56 | with the same data word, different register values give different results |
| Crc32.ReferenceValue | src/main/drivers/accgyro_imuf9001/accgyro_imuf9001_betaflight.c:49-60 | after a reset, the data word 0x12345678 leaves 0xDF8A8A2B, the STM32 CRC unit's published example value |
| Frames.Seal | src/main/drivers/accgyro_imuf9001/accgyro_imuf9001_betaflight.c:124-125 | the sealed frame carries the new opcode and a valid crc, and every word except the command and the crc is kept |
| Frames.SealTwice | src/main/drivers/accgyro_imuf9001/accgyro_imuf9001_betaflight.c:138-139 | resealing with a second opcode gives the frame sealed with that opcode alone, so repeated resealing to IMUF_COMMAND_NONE is stable |
| Frames.BitFlipDetected | src/main/drivers/accgyro_imuf9001/accgyro_imuf9001_betaflight.c:135-136 | flipping any single bit of a valid frame's checked words or crc word makes the receiver's crc test fail |
| ImufDriver.GetCrc | src/main/drivers/accgyro_imuf9001/accgyro_imuf9001_betaflight.c:62-68 | the result is the reset-then-feed checksum of exactly the first `size` words, so identical prefixes give identical results |
| ImufDriver.CheckReply | src/main/drivers/accgyro_imuf9001/accgyro_imuf9001_betaflight.c:135-136 | the receiver's test passes exactly when the reply's stored crc matches its first eleven words |
| ImufDriver.Reseal | src/main/drivers/accgyro_imuf9001/accgyro_imuf9001_betaflight.c:124-125 | writing the opcode and recomputing the crc gives the sealed frame |
| ImufDriver.FirstReadyIsFirst | src/main/drivers/accgyro_imuf9001/accgyro_imuf9001_betaflight.c:137-150 | the poll the confirmation loop exchanges at is the first ready poll of its 100; when there is none, the line was low at all of them |
| ImufDriver.IterateCases | src/main/drivers/accgyro_imuf9001/accgyro_imuf9001_betaflight.c:130-161 | one listening iteration takes one of its four paths: not ready; a probe that was not acknowledged; an acknowledgement with no ready poll among the next 100; an acknowledgement and one confirming exchange of the NONE frame |
| ImufDriver.IterateMade | src/main/drivers/accgyro_imuf9001/accgyro_imuf9001_betaflight.c:130-161 | one iteration's exchanges are the link's answers and send the frame the acknowledgement state selects. Confirmations follow an acknowledgement. It makes one probe per ready poll, and its polls are bounded by 1 + 100 |
| ImufDriver.ListenExchanged | src/main/drivers/accgyro_imuf9001/accgyro_imuf9001_betaflight.c:134-152 | every reply of the listening loop is the link's answer to the frame sent, numbered in order |
| ImufDriver.ListenSent | src/main/drivers/accgyro_imuf9001/accgyro_imuf9001_betaflight.c:124-139 | the loop sends the sealed command until the first listening acknowledgement and the IMUF_COMMAND_NONE frame from then on |
| ImufDriver.ListenFollows | src/main/drivers/accgyro_imuf9001/accgyro_imuf9001_betaflight.c:136-152 | every confirming exchange comes right after a CRC-valid listening acknowledgement |
| ImufDriver.ListenOutcome | src/main/drivers/accgyro_imuf9001/accgyro_imuf9001_betaflight.c:153-163 | the loop returns 1 exactly when its last exchange is a CRC-valid confirmation echoing the command and no earlier one is |
| ImufDriver.ListenBudget | src/main/drivers/accgyro_imuf9001/accgyro_imuf9001_betaflight.c:115-133 | each probe costs 101 units of failCount, so at most (fc + 100) / 101 probes happen; the polls made lie between 1 and fc + 100 |
| ImufDriver.ListenNeverReady | src/main/drivers/accgyro_imuf9001/accgyro_imuf9001_betaflight.c:130-132 | with the ready line low throughout, the loop makes exactly fc polls and no exchange, and returns 0 |
| ImufDriver.ListenLoopback | src/main/drivers/accgyro_imuf9001/accgyro_imuf9001_betaflight.c:103-110 | over the loopback transport the listening loop never returns 1 |
| ImufDriver.LoopbackAcks | src/main/drivers/accgyro_imuf9001/accgyro_imuf9001_betaflight.c:134-136 | over loopback each reply equals the frame sent, and an acknowledged probe carried the sealed command, whose opcode is then a listening opcode |
| ImufDriver.HandshakeLoopbackAcks | src/main/drivers/accgyro_imuf9001/accgyro_imuf9001_betaflight.c:103-110 | a call over loopback gets its own frames back, and passes the listening check only when commandToSend is IMUF_COMMAND_LISTENING or BL_LISTENING |
| ImufDriver.HandshakeProperties | src/main/drivers/accgyro_imuf9001/accgyro_imuf9001_betaflight.c:112-164 | all of the following hold for one call: replies are the link's answers; the frames sent are the sealed command, then the NONE frame; confirmations follow acknowledgements; 1 comes exactly with a first echoing confirmation; at most 50 probes and 5100 polls are made; a never-ready line means 5000 polls, no exchange and 0; loopback never gives 1 |
| ImufDriver.HandshakePolls | src/main/drivers/accgyro_imuf9001/accgyro_imuf9001_betaflight.c:115-133 | a call makes at most 50 listening-phase exchanges and between 1 and 5100 polls, so it always terminates |
| ImufDriver.HandshakeSilent | src/main/drivers/accgyro_imuf9001/accgyro_imuf9001_betaflight.c:130-163 | if the ready line stays low for 5000 polls the call makes exactly those polls and no transfer, and returns 0 |
| ImufDriver.HandshakeIdle | src/main/drivers/accgyro_imuf9001/accgyro_imuf9001_betaflight.c:130-132 | if the ready line stays low for 5000 polls, the call records exactly `Idle(5000)`: 5000 times a 1 ms wait followed by a read that finds the line low |
| ImufDriver.ListenIdle | src/main/drivers/accgyro_imuf9001/accgyro_imuf9001_betaflight.c:130-132 | with the ready line low throughout, the listening loop with fc left records fc waits of 1 ms, each followed by a low read |
| ImufDriver.IdleCons | src/main/drivers/accgyro_imuf9001/accgyro_imuf9001_betaflight.c:130-132 | n idle iterations are one 1 ms wait and low read followed by n - 1 more |
| ImufDriver.BlockCounts | src/main/drivers/accgyro_imuf9001/accgyro_imuf9001_betaflight.c:131-152 | a probe and a confirmation attempt each read the ready line exactly once, right after 1 ms, and record transport events only |
| ImufDriver.ConfirmEventsShape | src/main/drivers/accgyro_imuf9001/accgyro_imuf9001_betaflight.c:137-158 | the confirmation attempts read the ready line once each, up to and including the first ready poll of the 100, or 100 times when none is ready |
| ImufDriver.IterateEventsShape | src/main/drivers/accgyro_imuf9001/accgyro_imuf9001_betaflight.c:130-161 | one iteration's events read the ready line as often as `Iterate` counts polls, each read after 1 ms |
| ImufDriver.IterateEventsCases | src/main/drivers/accgyro_imuf9001/accgyro_imuf9001_betaflight.c:130-161 | an iteration records 1 ms and a low read; or 1 ms, a high read and the probe; and after an acknowledgement the confirmation attempts |
| ImufDriver.ListenEventsShape | src/main/drivers/accgyro_imuf9001/accgyro_imuf9001_betaflight.c:130-163 | the listening loop's events are transport events, every read of the ready line follows 1 ms, and there is one read per poll `Listen` counts |
| ImufDriver.HandshakeTiming | src/main/drivers/accgyro_imuf9001/accgyro_imuf9001_betaflight.c:112-164 | a call records only delays, reads and exchanges; every read follows 1 ms; one read per poll; and with the ready line low for 5000 polls, exactly 5000 alternations of a 1 ms wait and a low read |
| ImufDriver.HandshakeLoopback | src/main/drivers/accgyro_imuf9001/accgyro_imuf9001_betaflight.c:152-155 | over loopback the confirmation returns the NONE frame, which cannot echo a listening command, so the call fails |
| ImufDriver.ProbeAttempt | src/main/drivers/accgyro_imuf9001/accgyro_imuf9001_betaflight.c:131-134 | one poll after 1 ms; when the line is high, one exchange of the given frame, with the link's reply; the events are the wait, the read and the exchange |
| ImufDriver.SettleDelay | src/main/drivers/accgyro_imuf9001/accgyro_imuf9001_betaflight.c:141-146 | 600 ms after a full erase, 10 ms after a firmware write, no wait otherwise; no poll and no exchange |
| ImufDriver.ConfirmAttempt | src/main/drivers/accgyro_imuf9001/accgyro_imuf9001_betaflight.c:141-152 | one confirmation attempt makes exactly one poll and, when it is ready, one exchange of the given frame; it records the 600 ms or 10 ms settle wait of BL_ERASE_ALL or BL_WRITE_FIRMWARES, 1 ms, the read and, when ready, 1 ms and the exchange |
| ImufDriver.ConfirmPhase | src/main/drivers/accgyro_imuf9001/accgyro_imuf9001_betaflight.c:137-158 | the loop stops at the first ready poll of 100 and sends the NONE-sealed frame at most once. It returns 1 exactly when that reply is CRC-valid and echoes the command; otherwise the reply is unchanged or is the link's answer. Its events are those of the attempts up to that poll, in order |
| ImufDriver.ConfirmRound | src/main/drivers/accgyro_imuf9001/accgyro_imuf9001_betaflight.c:138-152 | one pass of the confirmation loop reseals the frame to IMUF_COMMAND_NONE and makes one attempt; a ready poll is the first ready one from where the loop stands, and its exchange gets the link's answer |
| ImufDriver.ListenIteration | src/main/drivers/accgyro_imuf9001/accgyro_imuf9001_betaflight.c:130-161 | one pass of the outer loop does what `Iterate` says: its exchanges, polls, acknowledgement state and early return; the command it leaves is the one the next pass sends; it records `IterateEvents` |
| ImufDriver.ConfirmTurn | src/main/drivers/accgyro_imuf9001/accgyro_imuf9001_betaflight.c:136-158 | after an acknowledged probe, the confirmation loop completes the iteration as `Iterate` says, leaves the NONE frame as the command, and completes the iteration's `IterateEvents` |
| ImufDriver.ListenLoop | src/main/drivers/accgyro_imuf9001/accgyro_imuf9001_betaflight.c:130-163 | the outer while loop over failCount does what `Handshake` says, the reply buffer holds the last exchange's reply, and the trace gains exactly `HandshakeEvents` |
| ImufDriver.SendReceiveCommand | src/main/drivers/accgyro_imuf9001/accgyro_imuf9001_betaflight.c:112-164 | the call is `Handshake` of the command sealed over the payload (zeros without data): same result, exchanges and polls. The reply is the last reply, or zeros when no exchange happened. The trace gains exactly the call's `HandshakeEvents` |
| ImufSession.ChainPolls | src/main/drivers/accgyro_imuf9001/accgyro_imuf9001_betaflight.c:171-172 | n consecutive calls make between n and n * 5100 polls |
| ImufSession.ChainSilent | src/main/drivers/accgyro_imuf9001/accgyro_imuf9001_betaflight.c:255-260 | with the ready line low throughout, every call of a retry loop fails without an exchange and takes exactly 5000 polls |
| ImufSession.ChainSilentEvents | src/main/drivers/accgyro_imuf9001/accgyro_imuf9001_betaflight.c:255-260 | with the ready line low throughout, each call of a retry loop records exactly `Idle(5000)` |
| ImufSession.CallEvents | src/main/drivers/accgyro_imuf9001/accgyro_imuf9001_betaflight.c:171-172 | one list of events per call of a retry loop, each the handshake's events from where the previous call left the counters |
| ImufSession.CallEventsTransport | src/main/drivers/accgyro_imuf9001/accgyro_imuf9001_betaflight.c:255-260 | every call of a retry loop records delays, reads and exchanges only |
| ImufSession.HandshakeTransport | src/main/drivers/accgyro_imuf9001/accgyro_imuf9001_betaflight.c:112-164 | one call records delays, reads and exchanges only |
| ImufSession.ChainLoopback | src/main/drivers/accgyro_imuf9001/accgyro_imuf9001_betaflight.c:171-172 | over loopback no call of a retry loop returns 1 |
| ImufSession.Pack16 | src/main/drivers/accgyro_imuf9001/accgyro_imuf9001_betaflight.c:219 | the packed word's high half is the first setting's low 16 bits, and its low half is the second setting's |
| ImufSession.PackExact | src/main/drivers/accgyro_imuf9001/accgyro_imuf9001_betaflight.c:219-228 | settings that fit 16 bits unpack exactly: hi == v >> 16 and lo == v & 0xFFFF |
| ImufSession.PackHalves | src/main/drivers/accgyro_imuf9001/accgyro_imuf9001_betaflight.c:219-228 | packing a word's own halves gives back the word, so packing and unpacking are inverse |
| ImufSession.ParamsFrame | src/main/drivers/accgyro_imuf9001/accgyro_imuf9001_betaflight.c:214-241 | params 2 to 5 hold their two settings each, high half first; params 7 to 9 are 0; param10's high half is 2 with the acc lpf low; every other word is kept |
| ImufSession.SetupImufParams | src/main/drivers/accgyro_imuf9001/accgyro_imuf9001_betaflight.c:214-241 | the field writes leave exactly the frame `ParamsFrame` describes |
| ImufSession.BackoffShape | src/main/drivers/accgyro_imuf9001/accgyro_imuf9001_betaflight.c:256-259 | before attempt k >= 1: the reset pin low, 40 waits of 20 ms, the pin high, 100 ms, then 300 * k ms |
| ImufSession.NoHookInAttempts | src/main/drivers/accgyro_imuf9001/accgyro_imuf9001_betaflight.c:255-260 | resets, backoffs and calls never invoke mpuGyroInit |
| ImufSession.HookIffSuccess | src/main/drivers/accgyro_imuf9001/accgyro_imuf9001_betaflight.c:260-263 | mpuGyroInit appears in imufSpiGyroInit's events exactly when a SETUP call succeeded; exhaustion fails silently |
| ImufSession.CallAgain | src/main/drivers/accgyro_imuf9001/accgyro_imuf9001_betaflight.c:172 | one more call continues the chain of handshakes from where the counters stand, and the trace gains exactly that call's events |
| ImufSession.Imuf9001.constructor | src/main/drivers/accgyro_imuf9001/accgyro_imuf9001_betaflight.c:39-42 | the version starts at IMUF_FIRMWARE_MIN_VERSION, the flag at 0 and the device at NULL |
| ImufSession.Imuf9001.Whoami | src/main/drivers/accgyro_imuf9001/accgyro_imuf9001_betaflight.c:166-181 | at most 5 REPORT_INFO calls, stopping at the first that succeeds with firmware >= the minimum. IMUF_9001_SPI exactly then, with that version recorded; otherwise version 9999 and 0. The trace is the calls' events, one after the other |
| ImufSession.Imuf9001.StartCalibration | src/main/drivers/accgyro_imuf9001/accgyro_imuf9001_betaflight.c:276-278 | the flag becomes IMUF_IS_CALIBRATING; nothing else changes |
| ImufSession.Imuf9001.EndCalibration | src/main/drivers/accgyro_imuf9001/accgyro_imuf9001_betaflight.c:280-282 | the flag becomes IMUF_NOT_CALIBRATING; nothing else changes |
| ImufSession.Imuf9001.GyroInit | src/main/drivers/accgyro_imuf9001/accgyro_imuf9001_betaflight.c:243-266 | at most 10 SETUP calls with the packed payload, stopping at the first success. The trace is each attempt's reset and backoff followed by that call's `CallEvents` entry, then mpuGyroInit exactly on success |
| ImufSession.WhoamiCalls | src/main/drivers/accgyro_imuf9001/accgyro_imuf9001_betaflight.c:171-178 | the REPORT_INFO loop stops at the first accepted call, or after 5; `found` says whether the last call was accepted, and then its firmware is returned; the trace is the calls' events in order |
| ImufSession.WhoamiAttempt | src/main/drivers/accgyro_imuf9001/accgyro_imuf9001_betaflight.c:172-176 | one REPORT_INFO call, accepted exactly when it returned 1 with firmware >= the minimum; its events follow those of the calls before it |
| ImufSession.SetupRetries | src/main/drivers/accgyro_imuf9001/accgyro_imuf9001_betaflight.c:255-265 | up to 10 consecutive SETUP calls that stop at the first success; the trace is each attempt's backoff followed by that call's events |
| ImufSession.SetupAttempt | src/main/drivers/accgyro_imuf9001/accgyro_imuf9001_betaflight.c:256-264 | attempt k: its backoff, then one SETUP call that extends the chain and appends its events |
| ImufSession.RetryBackoff | src/main/drivers/accgyro_imuf9001/accgyro_imuf9001_betaflight.c:256-259 | the events before attempt k are `Backoff(k)`, with no poll or exchange |
| ImufSession.ResetImuf9001 | src/main/drivers/accgyro_imuf9001/accgyro_imuf9001_betaflight.c:79-86 | the pin goes low, then 40 waits of 20 ms, then the pin goes high, then 100 ms |
| ImufSession.InitImuf9001 | src/main/drivers/accgyro_imuf9001/accgyro_imuf9001_betaflight.c:88-99 | initImuf9001 produces exactly the reset sequence |
| ImufSession.SpiDetect | src/main/drivers/accgyro_imuf9001/accgyro_imuf9001_betaflight.c:183-188 | IMUF_9001_SPI, whatever the device |
| ImufSession.GyroDetect | src/main/drivers/accgyro_imuf9001/accgyro_imuf9001_betaflight.c:190-200 | claims the gyro exactly when it was detected as IMUF_9001_SPI, then installs init, read and scale 1.0; otherwise it changes nothing |
| ImufSession.AccInit | src/main/drivers/accgyro_imuf9001/accgyro_imuf9001_betaflight.c:202-204 | acc_1G becomes 2048 and the hooks are kept |
| ImufSession.AccDetect | src/main/drivers/accgyro_imuf9001/accgyro_imuf9001_betaflight.c:206-210 | always claims the accelerometer, installing imufSpiAccInit and imufReadAccData |
| ImufSession.ReadGyroData | src/main/drivers/accgyro_imuf9001/accgyro_imuf9001_betaflight.c:268-270 | never reports a sample |
| ImufSession.ReadAccData | src/main/drivers/accgyro_imuf9001/accgyro_imuf9001_betaflight.c:272-274 | never reports a sample |
| Platform.Reply | src/main/drivers/accgyro_imuf9001/accgyro_imuf9001_betaflight.c:103-110 | the loopback transport returns exactly the frame sent |
| Platform.Board.Transfer | src/main/drivers/accgyro_imuf9001/accgyro_imuf9001_betaflight.c:134 | one exchange: the link's reply to the frame sent, with the exchange counter advanced by one |
| Platform.Board.ReadReady | src/main/drivers/accgyro_imuf9001/accgyro_imuf9001_betaflight.c:132 | the level of the ready line at the current poll number, with the poll counter advanced by one |
| Platform.Board.WriteResetPin | src/main/drivers/accgyro_imuf9001/accgyro_imuf9001_betaflight.c:71-77 | the reset pin goes high or low, recorded as one event |
| ImufAdapter.SpiDetect | src/main/drivers/accgyro_imuf9001/adapter.c:25-28 | GYRO_IMUF9001, whatever the device |
| ImufAdapter.GyroDetect | src/main/drivers/accgyro_imuf9001/adapter.c:30-35 | always true; installs imufSpiGyroInit and, as the gyro's reader, imufReadAccData; scale and detection result are kept |
| ImufAdapter.AccDetect | src/main/drivers/accgyro_imuf9001/adapter.c:37-42 | always true; installs imufSpiAccInit and imufReadAccData |
| ImufAdapter.GyroInit | src/main/drivers/accgyro_imuf9001/adapter.c:44-46 | leaves the gyro unchanged |
| ImufAdapter.AccInit | src/main/drivers/accgyro_imuf9001/adapter.c:48-50 | leaves the accelerometer unchanged |
| ImufAdapter.ReadAccData | src/main/drivers/accgyro_imuf9001/adapter.c:52-55 | always reports a sample |
| ImufStub.StubState.constructor | src/main/drivers/accgyro_imuf9001/accgyro_imuf9001_stub.c:15-16 | both globals start at 0 |
| ImufStub.StubState.StartCalibration | src/main/drivers/accgyro_imuf9001/accgyro_imuf9001_stub.c:42-43 | nothing changes |
| ImufStub.StubState.EndCalibration | src/main/drivers/accgyro_imuf9001/accgyro_imuf9001_stub.c:45-46 | nothing changes |
| ImufStub.SpiDetect | src/main/drivers/accgyro_imuf9001/accgyro_imuf9001_stub.c:19-22 | 0, not detected |
| ImufStub.AccDetect | src/main/drivers/accgyro_imuf9001/accgyro_imuf9001_stub.c:24-27 | false, without touching the device |
| ImufStub.GyroDetect | src/main/drivers/accgyro_imuf9001/accgyro_imuf9001_stub.c:29-32 | false, without touching the device |
| ImufStub.GyroInit | src/main/drivers/accgyro_imuf9001/accgyro_imuf9001_stub.c:34-36 | leaves the gyro unchanged |
| ImufStub.AccInit | src/main/drivers/accgyro_imuf9001/accgyro_imuf9001_stub.c:38-40 | acc_1G becomes 2048 and nothing else changes |
| ImufFacade.SpiDetect | src/main/drivers/accgyro_imuf9001/adapter.c:25-28 | each variant's detect returns its own `DetectResult` |
| ImufFacade.SpiDetectSideBySide | src/main/drivers/accgyro_imuf9001/accgyro_imuf9001_stub.c:19-22 | only the stub reports no device |
| ImufFacade.GyroDetect | src/main/drivers/accgyro_imuf9001/accgyro_imuf9001_betaflight.c:190-200 | each variant claims and equips the gyro as `GyroClaim` says, and a declined gyro keeps its hooks |
| ImufFacade.GyroClaimSideBySide | src/main/drivers/accgyro_imuf9001/adapter.c:30-35 | every claim installs imufSpiGyroInit. The full driver claims exactly IMUF_9001_SPI; the adapter claims always, with the accelerometer reader; the stub never claims |
| ImufFacade.AccDetect | src/main/drivers/accgyro_imuf9001/accgyro_imuf9001_stub.c:24-27 | every variant but the stub claims the accelerometer with imufSpiAccInit and imufReadAccData |
| ImufFacade.AccInit | src/main/drivers/accgyro_imuf9001/adapter.c:48-50 | acc_1G after init is `AccScale` of the variant and the previous value |
| ImufFacade.AccScaleSideBySide | src/main/drivers/accgyro_imuf9001/accgyro_imuf9001_stub.c:38-40 | the full driver and the stub set 2048; the adapter keeps the old value |
| ImufFacade.GyroInit | src/main/drivers/accgyro_imuf9001/accgyro_imuf9001_betaflight.c:243-266 | only the full driver talks to the board: SETUP retries whose events are `CallEvents`, then mpuGyroInit on success; the others leave board and gyro untouched |
| ImufFacade.ReadersSideBySide | src/main/drivers/accgyro_imuf9001/adapter.c:52-55 | the adapter's accelerometer reader reports a sample and the full driver's does not. The stub has no reader, and only the full driver has a gyro reader, which never reports one |
| ImufFacade.InitialGlobals | src/main/drivers/accgyro_imuf9001/accgyro_imuf9001_stub.c:15-16 | the full driver starts at version IMUF_FIRMWARE_MIN_VERSION and the stub at 0; both flags start at 0, and the adapter has no globals |
| ImufFacade.CalibrationFlags | src/main/drivers/accgyro_imuf9001/accgyro_imuf9001_stub.c:42-46 | the full driver's flag goes 0, 1, 0 through start and end; the stub's stays 0; the adapter has none |
| PwmOutput.Silenced | src/platform/STM32/pwm_output_hw.c:120-123 | a silenced output drives no pulse, keeps its timer, io and flags, and is untouched when it has no compare register |
| PwmOutput.SilencedIdempotent | src/platform/STM32/pwm_output_hw.c:117-125 | shutting an output down twice is the same as once |
| PwmOutput.PwmOutputs.constructor | src/platform/STM32/pwm_output_hw.c:38 | the records start zeroed, the motor count at 0 and continuous updates on |
| PwmOutput.PwmOutputs.ShutdownPulses | src/platform/STM32/pwm_output_hw.c:117-125 | every motor below pwmMotorCount with a compare register gets 0 in it; every other record is unchanged |
| PwmOutput.PwmOutputs.DisableMotors | src/platform/STM32/pwm_output_hw.c:127-130 | the same effect as the shutdown |
| PwmOutput.PwmOutputs.CompleteMotorUpdate | src/platform/STM32/pwm_output_hw.c:132-146 | nothing when updates are continuous. Otherwise each motor below the count has its compare register zeroed, and exactly the flagged motors' timers are forced to overflow, in order |
| PwmOutput.ForcedEachTimerOnce | src/platform/STM32/pwm_output_hw.c:138-141 | with first-use flags, the timers forced to overflow are exactly the timers of the motors, each listed once |
| PwmOutput.OneFlagPerTimer | src/platform/STM32/pwm_output_hw.c:249-256 | with first-use flags, each timer in use is flagged on exactly one motor |
| PwmOutput.FlaggedFor | src/platform/STM32/pwm_output_hw.c:249-256 | the flagged motor for a timer is the lowest-indexed one that uses it |
| PwmOutput.ProtocolSwitch | src/platform/STM32/pwm_output_hw.c:180-209 | BRUSHED and PWM force continuous updates and idle pulse 0, and the others keep the configured flag and pulse. An unknown protocol acts as ONESHOT125, and unsynced updates only occur with the oneshot and multishot timings |
| PwmOutput.ClockFitsIff | src/platform/STM32/pwm_output_hw.c:231-236 | the 32-bit prescaler arithmetic is defined exactly when clock >= pwmRateHz and clock / pwmRateHz + 0xffff does not wrap |
| PwmOutput.TimingBounds | src/platform/STM32/pwm_output_hw.c:235-237 | the prescaler is the rounded-up quotient clock / rate / 65536 and lies in 1..0xFFFF. A continuous period is at most 65536 ticks; an unsynced one is 0xFFFF |
| PwmOutput.PeriodReachesBound | src/platform/STM32/pwm_output_hw.c:235-237 | the 65536-tick bound is reached (65.536 MHz at 1 kHz), and the uint16_t period parameter then receives 0 |
| PwmOutput.InitFirstUse | src/platform/STM32/pwm_output_hw.c:249-257 | after the motors are set up, forceOverflow is set exactly when no lower motor shares the timer; each motor has a zeroed compare register and is enabled |
| PwmOutput.FirstUseOfPorts | src/platform/STM32/pwm_output_hw.c:249-256 | once the lower ports hold the timers they were granted, the search over them finds no shared timer exactly when no lower motor was granted the same timer |
| PwmOutput.AllGrantedBelow | src/platform/STM32/pwm_output_hw.c:211-222 | the loop reaching motor k is the same as every motor below k having been granted a timer, in both directions |
| PwmOutput.PwmOutputs.ClearMotors | src/platform/STM32/pwm_output_hw.c:176 | every motor record is zero |
| PwmOutput.PwmOutputs.PwmOutConfig | src/platform/STM32/pwm_output_hw.c:79-109 | the channel is bound to the timer with its compare register at 0, and the timer is programmed with the frequency, the period cut to 16 bits, the pulse and the inversion; no other record changes |
| PwmOutput.PwmOutputs.TimerAlreadyUsed | src/platform/STM32/pwm_output_hw.c:249-255 | true exactly when some lower motor uses the same timer |
| PwmOutput.PwmOutputs.InitMotor | src/platform/STM32/pwm_output_hw.c:212-257 | a motor is set up exactly when its tag, ioTags[motorOutputReordering[i]], is granted a timer. It is then bound and enabled, its first-use flag is set, and one pwmOutConfig call is added; otherwise nothing changes |
| PwmOutput.PwmOutputs.InitMotors | src/platform/STM32/pwm_output_hw.c:211-258 | motors are set up in order up to n, stopping at the first refused one; those before it are as `MotorPort` says and the rest stay zero |
| PwmOutput.PwmOutputs.MotorPwmDevInit | src/platform/STM32/pwm_output_hw.c:174-261 | only motors below min(count, MAX_SUPPORTED_MOTORS) are processed. It returns true exactly when all were granted timers, with the vtable installed and the count kept; a refusal clears the vtable and the count and returns false. The continuous flag is the protocol switch's |
| PwmOutput.PwmOutputs.WriteServo | src/platform/STM32/pwm_output_hw.c:271-276 | writes only when the index is below MAX_SUPPORTED_SERVOS and the servo has a compare register; otherwise nothing changes |
| PwmOutput.PwmOutputs.ServoDevInit | src/platform/STM32/pwm_output_hw.c:278-303 | an empty tag is skipped. A tagged servo gets its io and is then either configured at 1 MHz and enabled, or refused, which stops the loop; later servos stay as they were |

## Left out

- Real time, interrupts and concurrency. Delays are trace events. The `volatile` globals are plain fields. Cross-context access to `isImufCalibrating` is not modelled.
- The CRC unit's registers (`RCC->AHB1ENR`, `CRC->CR`, `CRC->DR`). The engine is the pure function `Crc32.Checksum`.
- The header that declares `imufCommand_t`, `imufVersion_t` and the opcode values is not part of this model:
  - The frame is thirteen 32-bit words: the command, param1..10, the crc and one trailing word.
  - The opcode values are assumed, since they cannot be checked against that header. Only the fact that they are distinct matters to the proofs.
- The values of the filter setting macros (`IMUF_RATE_SETTING`, …) are not part of this model. They are fields of `ImufSession.ImufSettings`.
- A failing SPI transfer. `imufSendReceiveSpiBlocking` always returns true, so that branch does not arise.
- The GPIO register writes of the reset pin are the `ResetLow` and `ResetHigh` trace events, one per write. The `GPIO_Init` configuration of the pin that `initImuf9001` performs first records nothing.
- ImufSession.Firmware: the position of the `firmware` field inside `imufVersion_t` is assumed to be the low 16 bits of param1, because the header is not part of this model. The whoami contracts compare `Firmware` of the reply with the minimum version, so they rest on the same assumption.
- `mpuGyroInit`, `IOGetByTag` and `IORead` of the EXTI pin. These are oracle calls on the board.
- The `imufQuat` global, which no modelled function uses.
- The gyro's float `scale` is kept as a real only to say that it becomes 1.0.
- The floating-point parts of `motorPwmDevInit`:
  - `sMin`, `sLen`, `pulseScale` and `pulseOffset`;
  - the unsynced rate `ceilf(1 / ((sMin + sLen) * 4))`, which is the parameter `unsyncedRate`.
- `pwmWriteStandard` and the float conversions, because they are floating point.
- `PwmOutput.PwmOutputs.WriteServo`: takes the value already rounded, because `lrintf` is floating point.
- The HAL path and register plumbing of `pwmOutConfig` and `pwmOCConfig`: `configTimeBase`, output compare, channel start and `timerChCCR`. Only the call's arguments are recorded, and the channel binding.
- Aliasing between compare registers of ports on the same channel. Each port holds its own compare value.
- `IOInit`, `IOConfigGPIOAF` and `RESOURCE_INDEX`. The allocator oracle takes the raw index.
- `pwmGetMotors`, `pwmEnableMotors`, `pwmIsMotorEnabled` and `pwmGetMotorIO`. The declarations of `pwmMotors`, `pwmMotorCount` and `MAX_SUPPORTED_*` are outside this file and are not part of this model. The arrays take their length from the constructor.
- `PwmOutput.PwmOutputs.ShutdownPulses`: requires pwmMotorCount <= the array length. Initialisation stores `device->count` without a cap, so a larger count would index past the array in the code.
- `PwmOutput.PwmOutputs.CompleteMotorUpdate`: requires the same bound. It also requires a compare register and, for flagged motors, a timer, because the code dereferences them unchecked.
- `PwmOutput.PwmOutputs.MotorPwmDevInit`: requires every motor index reordered within `ioTags`, and idlePulse below 65536 (its `uint16_t` type). It also requires every grantable timer's clock to keep the prescaler arithmetic defined; a zero prescaler is a division by zero in the code.
- `PwmOutput.MotorTag`: outside the configured arrays it gives the empty tag. `motorPwmDevInit` never reaches that case under its precondition.
- `PwmOutput.PwmOutputs.ServoDevInit`: requires MAX_SUPPORTED_SERVOS below 256 (the `uint8_t` index), a nonzero servo rate, a centre pulse below 65536 and `ioTags` covering every servo.
