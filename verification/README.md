# Verification of the sensor-bench command engine

This project models the STM32 command engine of the repository together with the serial protocol
that feeds it, the host side of that link and the session event bus, and proves what they keep over
whole runs.

| module | models |
|---|---|
| `Crc` | CRC-16/CCITT-FALSE in C and Python: shift-register loops and their error-detection power |
| `Framing` | the frame format and a reference parser that cuts a byte stream into accounted pieces |
| `Parsers` | the C and the Python parser objects and both frame builders, against `Framing` |
| `Uart` | the two UART rings and the protocol task, with interrupts between any two accesses |
| `Sensors` | the sensor table and id allocation |
| `Timers`, `HwTimer` | divider and compare arithmetic with C widths; the shared timer pool |
| `Spi`, `Wire` | SPI claims and drivers; error codes, readers, pin bitmaps |
| `Pwm`, `Dac`, `SpiSensor`, `I2cSensor`, `DigitalOut` | the five backends: staged setup with rollback, output, stop |
| `I2cSlave` | the I2C slave interrupt handlers against a register file with a cursor |
| `Bench` | the whole engine as one state, every command and interrupt a step of it |
| `Effects` | every command as a contract over payload bytes and the tables of all backends |
| `Dispatcher`, `Session` | the dispatcher object over the concrete tables, refining `Bench`; parser, dispatcher and encoder from bytes to bytes |
| `StmLink` | the host's pending-ACK table under timeouts and late, lost or reordered ACKs |
| `Bus`, `BusDelivery` | the Go event bus at the level of lock, channel and atomic operations; what Publish, Subscribe and Close achieve in it |

How the engine part is built. Each backend has a reference state (a map of live sensors) and a
reference function per command that says, in one step, which error a request gets or which sensor
is added. The concrete tables (pool cells, reference counts, pin bitmaps, channel masks, claims,
semaphores, heap blocks) are tied to that state by one predicate (`Agree`, `Own`), and each method,
written with the source's stages and rollbacks over those tables, is proved to perform the
reference function. `Bench` then composes the reference functions and proves the theorems about
every command and every run, and `Dispatcher.Firmware.Handle` carries them to the tables.

Beside the reference functions each backend has contracts that do not mention them (`SetUp`, then
`Retuned`, `Written`, `Reloaded`, `Overwritten` or `Driven`, and `Halted`, `Closes`, `Freed` or
`Silenced`): they say, over payload bytes at their offsets and over table contents, which block
succeeds, what the first objection to another is, which cell, register, claim, word, map or pin the
command writes, and that nothing else changes. `Effects.Handled` puts them together for every frame;
`Dispatcher.Firmware.Setup` and `SetupAndStop` add all-or-nothing and undo over the same tables.

What the environment decides is a parameter or a nondeterministic step: whether a semaphore, a heap
block or an RTOS timer can be had, whether an SPI transfer completes, which bytes and flags an
interrupt finds, when ACKs arrive, which goroutine runs next. Theorems hold for every choice.

C widths are explicit where a property mentions them: the CRC register is a 16-bit vector, payload
lengths are added modulo 2^16, the compare product modulo 2^32, ring indices modulo 512, ids run
1..255, sequence numbers modulo 256, pin bitmaps and channel masks are 16-bit words.

Findings about the code that the proofs made exact:

- A digital-out setup with a free hardware timer always answers an error and keeps the timer
  reserved, because the zero success code of the timer driver is read as a failure
  (`DigitalOut.FailedSetupLeaks` says exactly when a failed setup changes the timer pool,
  `DigitalOut.FirstHardwareSetupLeaks` is the smallest case). All other failed setups change nothing, down to the
  concrete tables (`Dispatcher.Firmware.Setup`).
- On the 32-bit timers the compare product wraps for some duty exactly below 196 Hz, and then the
  channel gets less duty than asked (`Timers.WideWrapsBelow196`).
- ACK matching holds while fewer than 256 newer commands are issued; with 256 it fails
  (`StmLink.WindowIsTight`).
- The encoder's comment that a partial frame is never emitted
  (stm32/project/protocol/src/protocol_encoder.c:46-49) is not what the code does: a prefix is already
  queued when the ring fills. Room for the whole frame at the call is enough under any interrupts, and
  necessary when nothing is sent meanwhile (`Uart.Usart.PushFrame`); `Uart.PartialFrame` is a run that
  queues three bytes of an ACK.
- The CRC document's residue of zero over a whole frame (docs/protocol/crc16.md:130-131) does not hold
  for the low-byte-first order on the wire: it is zero if and only if the two CRC bytes are equal, while
  high byte first it always is (`Framing.FrameResidue`; `Framing.SyncFrameResidue` is a failing frame).
- The firmware resets the I2C register pointer only in a write address phase; a restarted read
  continues where the last one ended (`I2cSlave.ReadsFollowTheCursor`).
- A DAC chip set up without LDAC stores pin number 0, so a later request that repeats its configuration
  is refused with a pin mismatch if and only if the pin number given for the disabled LDAC is not 0
  (`Dac.DisabledLdacMismatch`; in `Dac.SameBlockRefused` the second channel repeats the first one's block).

## Model

| member | source | states |
|---|---|---|
| Crc.Update | stm32/project/protocol/src/crc16.c:13-40 | the nested byte and bit loops compute the bit-serial CRC of the data from any seed |
| Crc.Bulk | bbb/protocol/crc.py:14-26 | the Python loop computes the same CRC as the C loop |
| Crc.Step | bbb/protocol/crc.py:29-38 | the one-byte step is the CRC of one byte, so folding it equals the bulk CRC |
| Crc.CrcConcat | stm32/project/protocol/src/protocol_parser.c:10-13 | the CRC of a concatenation is the CRC of the rest seeded with the CRC of the first part |
| Crc.ByteStep | stm32/project/protocol/src/crc16.c:22-37 | xoring a whole byte into the top and clocking eight times equals feeding its eight bits |
| Crc.TwoByteResidue | stm32/project/protocol/src/crc16.c:22-37 | two further bytes bring the register to zero if and only if they are its two halves, high first |
| Crc.BurstChangesCrc | bbb/protocol/parser.py:155-170 | changing any non-empty burst within 16 consecutive bits changes the CRC, for messages of any length |
| Crc.OddFlipChangesCrc | bbb/protocol/parser.py:155-170 | flipping an odd number of bits changes the CRC |
| Framing.CrcRoundTrip | stm32/project/protocol/src/protocol_encoder.c:38-41 | the two CRC bytes, low first, and only they, read back as the CRC |
| Framing.FrameResidue | stm32/project/protocol/src/protocol_encoder.c:33-41 | the CRC run on over two trailing bytes is zero if and only if they are the frame's CRC high byte first; over a frame as sent it is zero if and only if its two CRC bytes are equal |
| Framing.SyncFrameResidue | stm32/project/protocol/src/protocol_encoder.c:33-41 | the CMD_SYNC frame with sequence number 0 has CRC 0x3885 and a residue other than zero |
| Framing.InputIsItsCuts | bbb/protocol/parser.py:76-195 | every input is the concatenation of cuts and an unfinished rest; each cut with a frame is exactly the encoder's output for that frame, so emitted frames are disjoint contiguous slices |
| Framing.CutsOfBytes | bbb/protocol/parser.py:76-195 | conversely, any concatenation of such cuts is parsed into exactly those cuts |
| Framing.CutsConcat | bbb/protocol/parser.py:176-195 | parsing does not depend on how the input is split into chunks |
| Framing.CleanLineDelivered | bbb/protocol/parser.py:76-195 | encoded frames mixed with bytes other than the start byte yield exactly those frames in order and no error |
| Framing.BackToIdle | stm32/project/protocol/src/protocol_parser.c:46-103 | from every mid-frame state the parser is idle again after at most 262 further bytes, whatever they are |
| Framing.QuietLineResynchronises | stm32/project/protocol/src/protocol_parser.c:46-103 | after any garbage and 262 bytes without a start byte, every later frame is delivered |
| Framing.DamageIsDetected | stm32/project/protocol/src/protocol_parser.c:92-103 | a burst of up to 16 bits, or an odd number of flips, in the covered bytes of a frame is reported as a CRC mismatch and yields no frame |
| Parsers.OnPayload | stm32/project/protocol/src/protocol_parser.c:76-90 | storing a payload byte follows the reference parser and the overflow guard is never taken |
| Parsers.CParser.Reset | stm32/project/protocol/src/protocol_parser.c:15-22 | back to idle from any state |
| Parsers.CParser.Feed | stm32/project/protocol/src/protocol_parser.c:24-109 | one byte moves the struct exactly as the reference parser; true exactly when a frame completes, with its contents in the struct |
| Parsers.PyParser.Reset | bbb/protocol/parser.py:65-74 | back to idle from any state |
| Parsers.PyParser.Feed | bbb/protocol/parser.py:76-174 | one byte moves the object exactly as the reference parser, and returns its frame or its error |
| Parsers.PyParser.FeedBytes | bbb/protocol/parser.py:176-195 | a chunk returns exactly the events of the reference parser over it |
| Parsers.Lockstep | stm32/project/protocol/src/protocol_parser.c:24-109 | both parsers, fed the same bytes, report a frame on the same byte with the same contents |
| Parsers.BuildFrame | stm32/project/protocol/src/protocol_encoder.c:13-44 | the bytes written are the frame encoding and nothing past it is touched |
| Parsers.Layout | stm32/project/protocol/src/protocol_encoder.c:13-44 | where each byte of an encoded frame sits |
| Parsers.EncodeFrame | bbb/protocol/encoder.py:34-76 | raises exactly for a bad type, sequence number or payload length; otherwise its bytes parse back to that frame |
| Uart.Occupancy | stm32/project/drivers/uart/src/uart.c:84-128 | a ring never holds more than 511 bytes, and full and empty are told apart |
| Uart.Usart.constructor | stm32/project/drivers/uart/src/uart.c:50-75 | both rings start empty |
| Uart.Usart.IrqReceive | stm32/project/drivers/uart/src/uart.c:141-158 | a received byte is appended unless the ring is full, and the task is notified |
| Uart.Usart.IrqTransmit | stm32/project/drivers/uart/src/uart.c:169-182 | the oldest byte is sent, or the transmit interrupt is parked exactly when the ring is empty |
| Uart.Usart.Irq | stm32/project/drivers/uart/src/uart.c:132-185 | the whole handler keeps the rings FIFO and the wake-up facts, for any status flags |
| Uart.Usart.Interrupts | stm32/project/drivers/uart/src/uart.c:132-185 | so does any number of handler runs; it never removes a received byte or adds one to send |
| Uart.Usart.RxPop | stm32/project/drivers/uart/src/uart.c:84-98 | with interrupts between all accesses: takes the oldest byte; when it reports empty, later bytes have left a notification |
| Uart.Usart.PushOne | stm32/project/drivers/uart/src/uart.c:107-119 | one loop turn appends the byte unless the ring is full, under interleaved interrupts |
| Uart.Usart.Kick | stm32/project/drivers/uart/src/uart.c:121-124 | after the CR1 update a non-empty ring has its interrupt enabled, even if the handler parked it in between |
| Uart.Usart.TxPush | stm32/project/drivers/uart/src/uart.c:100-128 | accepts a prefix, at least as long as the room at the call and longer by at most what was sent meanwhile; accepted bytes stay in order and will be drained |
| Uart.Usart.PushFrame | stm32/project/protocol/src/protocol_encoder.c:46-60 | the whole frame is queued whenever there is room for it at the call, and only then if nothing is sent meanwhile; an error leaves a proper prefix queued, as long as the room at the call or longer |
| Uart.PartialFrame | stm32/project/protocol/src/protocol_encoder.c:46-60 | a run that ends with an error and the first three bytes of an ACK in the ring |
| Uart.ProtocolTask | stm32/project/app/src/app_init.c:50-78 | the frames dispatched are exactly those in the bytes received; once woken, the task never blocks while a byte waits |
| Uart.DrainOne | stm32/project/app/src/app_init.c:66-76 | one turn of the drain loop, parser and ring included |
| Sensors.FreeWithinProbes | stm32/project/command/src/sensor_manager.c:47-64 | with at most seven ids in use a free one is found within eight probes |
| Sensors.RegisterSucceeds | stm32/project/command/src/sensor_manager.c:66-95 | registration succeeds whenever a slot is free, with a non-zero id not in use; a full table is left as it was |
| Sensors.DelayedReuse | stm32/project/command/src/sensor_manager.c:47-95 | between two hand-outs of one id at least 247 other ids are handed out, for every history |
| Sensors.ReleaseClearsFill | stm32/project/command/src/sensor_manager.c:66-125 | releasing the id just registered restores every slot of the table |
| Sensors.SensorManager.constructor | stm32/project/command/src/sensor_manager.c:21-31 | an empty table whose next id is 1 |
| Sensors.SensorManager.IdInUse | stm32/project/command/src/sensor_manager.c:33-43 | true exactly for live ids |
| Sensors.SensorManager.AllocateId | stm32/project/command/src/sensor_manager.c:47-64 | the first free id from the hint round the ring, and the hint moves past it |
| Sensors.SensorManager.Register | stm32/project/command/src/sensor_manager.c:66-95 | the slots afterwards hold exactly the reference table's live sensors; one free slot is filled, or none for a full table |
| Sensors.SensorManager.Lookup | stm32/project/command/src/sensor_manager.c:97-112 | a slot exactly for live ids, holding that sensor |
| Sensors.SensorManager.Release | stm32/project/command/src/sensor_manager.c:114-125 | removes exactly that id, clearing its slot and no other |
| Timers.ComputeIsOptimal | stm32/project/drivers/timer/src/hw_timer.c:98-126 | succeeds exactly for 1 Hz to 42 MHz; the reload fits the counter, every smaller prescaler overflows it, the period error is below one prescaled tick, and a prescaled 16-bit timer keeps at least half its range |
| Timers.NoNearMiss | stm32/project/drivers/timer/src/hw_timer.c:108-120 | dividing by 65536 or by 65537 selects the same prescaler at every allowed frequency |
| Timers.NarrowIsExact | stm32/project/simulate/pwm/src/pwm_sensor.c:41-46 | on 16-bit timers the 32-bit compare product is exact at every allowed frequency |
| Timers.WideIsExactFrom196 | stm32/project/simulate/pwm/src/pwm_sensor.c:41-46 | on 32-bit timers it is exact for every duty if and only if the frequency is at least 196 Hz |
| Timers.WideWrapsBelow196 | stm32/project/simulate/pwm/src/pwm_sensor.c:41-46 | below 196 Hz full duty wraps |
| Timers.CcrAccurate | stm32/project/simulate/pwm/src/pwm_sensor.c:41-46 | without wrap-around the compare value is within one part of the requested duty and at most the reload value |
| Timers.CcrMonotone | stm32/project/simulate/pwm/src/pwm_sensor.c:41-46 | and is monotone in the duty |
| Timers.DutyConversion | stm32/project/simulate/pwm/src/pwm_sensor.c:41-46 | the three facts for every divider the firmware computes |
| HwTimer.ReleaseUndoesAcquire | stm32/project/drivers/timer/src/hw_timer.c:241-313 | releasing a channel undoes acquiring it, whether it opened or joined the timer |
| HwTimer.TimerPool.constructor | stm32/project/drivers/timer/src/hw_timer.c:50-61 | seven free timers |
| HwTimer.TimerPool.PulseAcquire | stm32/project/drivers/timer/src/hw_timer.c:167-188 | reserves exactly a free timer for the token |
| HwTimer.TimerPool.FindPulse | stm32/project/drivers/timer/src/hw_timer.c:130-141 | the first timer pulsing for the token |
| HwTimer.TimerPool.PulseRelease | stm32/project/drivers/timer/src/hw_timer.c:190-207 | frees that timer, if there is one |
| HwTimer.TimerPool.PwmAcquire | stm32/project/drivers/timer/src/hw_timer.c:241-294 | opens a free timer, or joins one running the same divider; otherwise the pool is unchanged |
| HwTimer.TimerPool.PwmRelease | stm32/project/drivers/timer/src/hw_timer.c:296-313 | counts down, and frees the timer with the last channel |
| Wire.SetBitIs | stm32/project/simulate/pwm/src/pwm_sensor.c:211 | setting a bit of an ownership word owns that pin and no other |
| Wire.ClearBitIs | stm32/project/simulate/pwm/src/pwm_sensor.c:234 | clearing a bit gives up that pin and no other |
| Wire.MarkPin | stm32/project/simulate/pwm/src/pwm_sensor.c:178-181 | the bitmap stays exactly the set of owned pins, and testing a bit tests ownership |
| Pwm.SetupKeepsInv | stm32/project/simulate/pwm/src/pwm_sensor.c:134-241 | setup keeps: no two live sensors share a channel or a pin, all channels of a timer agree on its divider |
| Pwm.UpdateKeepsInv | stm32/project/simulate/pwm/src/pwm_sensor.c:243-298 | so do SET_OUTPUT and STOP |
| Pwm.AcquireAgrees | stm32/project/drivers/timer/src/hw_timer.c:241-294 | the timer driver refuses a channel exactly when a pulse holds the timer or a live sensor runs it at another divider |
| Pwm.OccupyAgrees | stm32/project/simulate/pwm/src/pwm_sensor.c:190-226 | a completed setup leaves every table as the larger set of live sensors determines it: reference counts, dividers, pins, cells, compare registers |
| Pwm.VacateUndoes | stm32/project/simulate/pwm/src/pwm_sensor.c:228-236 | the rollback restores every table exactly |
| Pwm.VacateAgrees | stm32/project/simulate/pwm/src/pwm_sensor.c:277-298 | stop leaves the tables the remaining sensors determine |
| Pwm.RetuneAgrees | stm32/project/simulate/pwm/src/pwm_sensor.c:243-275 | a new duty changes one compare register and nothing else |
| Pwm.TablesAreDetermined | stm32/project/simulate/pwm/src/pwm_sensor.c:134-298 | live sensors and pulse reservations determine every table, so a failed setup, or setup and stop, restores all of them |
| Pwm.PulsesDoNotMatter | stm32/project/drivers/timer/src/hw_timer.c:167-207 | reserving or freeing timers for pulses leaves the PWM tables in order |
| Pwm.FieldsAreWanted | stm32/project/simulate/pwm/inc/pwm_sensor.h:54-64 | which bytes of the block hold which field, and when all are in range |
| Pwm.SetUpIs | stm32/project/simulate/pwm/src/pwm_sensor.c:134-241 | the reference setup has the effect the byte-level contract states, on any tables that agree with the live sensors |
| Pwm.RetunedIs | stm32/project/simulate/pwm/src/pwm_sensor.c:243-275 | likewise SET_OUTPUT |
| Pwm.StopIs | stm32/project/simulate/pwm/src/pwm_sensor.c:277-298 | likewise stop |
| Pwm.PwmBackend.constructor | stm32/project/simulate/pwm/src/pwm_sensor.c:125-132 | no sensor, no pin |
| Pwm.PwmBackend.Stages | stm32/project/simulate/pwm/src/pwm_sensor.c:134-241 | the stages of a setup over the tables perform the reference setup, with exact rollback |
| Pwm.PwmBackend.Setup | stm32/project/simulate/pwm/src/pwm_sensor.c:134-241 | over bytes and tables: succeeds exactly for an 11-byte block with every field in range, a free pin and channel, a timer that is free or at the divider asked for, and a free sensor slot; then entry, compare register, timer and pin are as the block asks; any other answer is the first objection and leaves every table as it was |
| Pwm.PwmBackend.Commit | stm32/project/simulate/pwm/src/pwm_sensor.c:196-241 | the stages after the timer is acquired, all or nothing |
| Pwm.PwmBackend.SetOutput | stm32/project/simulate/pwm/src/pwm_sensor.c:243-275 | a live entry with a duty of at most 10000 in two bytes gets the conversion of that duty in its compare register, and nothing else changes; any other answer changes nothing |
| Pwm.PwmBackend.Stop | stm32/project/simulate/pwm/src/pwm_sensor.c:277-298 | entry, compare register and pin of a live entry are given up, and its timer loses one channel |
| Spi.BufferRepeats | stm32/project/drivers/spi_slave/src/spi_slave.c:28-56 | the preloaded byte and the bytes loaded by interrupts run through the buffer in order, over and over |
| Spi.SpiDriver.Acquire | stm32/project/drivers/spi/src/spi.c:32-47 | claims exactly an unclaimed peripheral |
| Spi.SpiDriver.Release | stm32/project/drivers/spi/src/spi.c:49-58 | the peripheral is unclaimed afterwards, the other untouched |
| Spi.SpiDriver.MasterInit | stm32/project/drivers/spi_master/src/spi_master.c:104-146 | claim and driver state, or an error and no change |
| Spi.SpiDriver.MasterDeinit | stm32/project/drivers/spi_master/src/spi_master.c:148-167 | gives both up |
| Spi.SpiDriver.SlaveInit | stm32/project/drivers/spi_slave/src/spi_slave.c:60-99 | claim and an empty buffer, or an error and no change; a claimed peripheral or a running slave is refused |
| Spi.SpiDriver.SlaveDeinit | stm32/project/drivers/spi_slave/src/spi_slave.c:101-121 | gives both up |
| Spi.SpiDriver.SlaveSetTx | stm32/project/drivers/spi_slave/src/spi_slave.c:123-149 | exactly lengths 1 to 64 are accepted; the copy stays inside the buffer and becomes its contents |
| Spi.SpiDriver.SlaveTransmit | stm32/project/drivers/spi_slave/src/spi_slave.c:42-55 | the next byte of the buffer, round and round, or 0 for an empty one |
| Dac.SetupKeepsInv | stm32/project/simulate/dac/src/dac_sensor.c:104-275 | a running chip always has a channel and a valid configuration |
| Dac.StopKeepsInv | stm32/project/simulate/dac/src/dac_sensor.c:295-310 | also after stop, which tears down the chip with its last channel |
| Dac.WordRoundTrip | stm32/project/simulate/dac/src/dac_sensor.c:60-66 | command, address and data are read back from the four bytes of the command word |
| Dac.RefWordIs | stm32/project/simulate/dac/src/dac_sensor.c:232-247 | reference 1 or 2 sends a word that decodes to command 8, address 0, data 1 or 3 |
| Dac.ValueWordIs | stm32/project/simulate/dac/src/dac_sensor.c:249-251 | a value sends a word that decodes to command 3, the channel and the value |
| Dac.OpenAgrees | stm32/project/simulate/dac/src/dac_sensor.c:201-231 | bringing a chip up keeps claims, records, masks, cells and semaphores in step with the running chips |
| Dac.TearAgrees | stm32/project/simulate/dac/src/dac_sensor.c:44-53 | so does tearing it down |
| Dac.AddAgrees | stm32/project/simulate/dac/src/dac_sensor.c:258-261 | mask bit and pool cell change together when a channel is added |
| Dac.DropAgrees | stm32/project/simulate/dac/src/dac_sensor.c:264-269 | and when one is dropped |
| Dac.EmptyMask | stm32/project/simulate/dac/src/dac_sensor.c:306-307 | the mask is zero exactly when no channel is live |
| Dac.MasksAreExact | stm32/project/simulate/dac/src/dac_sensor.c:258-310 | between commands a chip is initialised if and only if its mask is not zero, and mask bit c is set if and only if pool entry periph*8+c is in use |
| Dac.TablesAreDetermined | stm32/project/simulate/dac/src/dac_sensor.c:104-310 | running chips and slave buffers determine claims, the flag and mask of every chip, on or off, cells and the number of semaphores, so failed setups leak nothing |
| Dac.DisabledLdacMismatch | stm32/project/simulate/dac/src/dac_sensor.c:157-171 | a request equal to the running chip's configuration apart from the pin number of a disabled LDAC is refused with a pin mismatch if and only if that number is not 0 |
| Dac.SameBlockRefused | stm32/project/simulate/dac/src/dac_sensor.c:157-228 | a concrete block that sets up channel 0 and is refused for channel 1 |
| Dac.SlavesDoNotMatter | stm32/project/drivers/spi/src/spi.c:32-58 | slave claims coming and going leave the DAC tables in order |
| Dac.SetUpIs | stm32/project/simulate/dac/src/dac_sensor.c:104-275 | the reference setup has the effect the byte-level contract states |
| Dac.WordsAre | stm32/project/simulate/dac/src/dac_sensor.c:232-256 | and sends exactly those words |
| Dac.WrittenIs | stm32/project/simulate/dac/src/dac_sensor.c:277-293 | likewise SET_OUTPUT |
| Dac.ClosesIs | stm32/project/simulate/dac/src/dac_sensor.c:295-310 | likewise stop |
| Dac.Semaphores.Create | stm32/project/simulate/dac/src/dac_sensor.c:201-209 | a new handle, or none when the RTOS has none |
| Dac.Semaphores.Delete | stm32/project/simulate/dac/src/dac_sensor.c:44-48 | the handle is gone |
| Dac.DacBackend.Reserve | stm32/project/simulate/dac/src/dac_sensor.c:201-219 | semaphore and peripheral, or neither |
| Dac.DacBackend.ChipWrite | stm32/project/simulate/dac/src/dac_sensor.c:82-96 | the command word is in the chip's buffer; the answer says whether the transfer completed |
| Dac.DacBackend.BringUp | stm32/project/simulate/dac/src/dac_sensor.c:173-247 | chip with reference programmed, or no trace of it, for every failing stage; sends the reference word once the chip is open and the reference is internal, and no other |
| Dac.DacBackend.Commit | stm32/project/simulate/dac/src/dac_sensor.c:249-275 | first output, mask, cell and registration, or all undone, with the chip torn down if it was new |
| Dac.DacBackend.Setup | stm32/project/simulate/dac/src/dac_sensor.c:104-275 | over bytes and tables: the first objection, the words sent on the way in order, and on success mask bit, entry and, for a chip that was off, configuration, claim and semaphore; any other answer leaves what the tables own as it was |
| Dac.DacBackend.SetOutput | stm32/project/simulate/dac/src/dac_sensor.c:277-293 | sends the word for the sensor's own chip and channel with the value in two bytes, and no other; what the tables own stays |
| Dac.DacBackend.Stop | stm32/project/simulate/dac/src/dac_sensor.c:295-310 | mask bit and entry are given up, and with the last channel chip, claim and semaphore |
| SpiSensor.LengthSumIsExact | stm32/project/simulate/spi_slave/src/spi_slave_sensor.c:68-87 | a length that passes the wrapped 16-bit check and the range check lies inside the payload |
| SpiSensor.SetupKeepsInv | stm32/project/simulate/spi_slave/src/spi_slave_sensor.c:43-167 | every live slave has a non-empty buffer of at most 64 bytes and a position inside it |
| SpiSensor.UpdateKeepsInv | stm32/project/simulate/spi_slave/src/spi_slave_sensor.c:169-207 | also after SET_OUTPUT and STOP |
| SpiSensor.SetUpIs | stm32/project/simulate/spi_slave/src/spi_slave_sensor.c:43-167 | the reference setup has the effect the byte-level contract states |
| SpiSensor.ReloadedIs | stm32/project/simulate/spi_slave/src/spi_slave_sensor.c:169-194 | likewise SET_OUTPUT |
| SpiSensor.FreedIs | stm32/project/simulate/spi_slave/src/spi_slave_sensor.c:196-207 | likewise stop |
| SpiSensor.SpiBackend.BringUp | stm32/project/simulate/spi_slave/src/spi_slave_sensor.c:123-148 | claims and loads a peripheral no DAC holds, or changes nothing |
| SpiSensor.SpiBackend.Teardown | stm32/project/simulate/spi_slave/src/spi_slave_sensor.c:27-36 | gives the peripheral and the pool entry up |
| SpiSensor.SpiBackend.Setup | stm32/project/simulate/spi_slave/src/spi_slave_sensor.c:43-167 | over bytes and ports: succeeds exactly for a block with every field in range on an unclaimed peripheral with a free sensor slot; then the peripheral serves the bytes from offset 16; any other answer leaves both ports as they were |
| SpiSensor.SpiBackend.SetOutput | stm32/project/simulate/spi_slave/src/spi_slave_sensor.c:169-194 | a live sensor serves the 1 to 64 bytes from offset 2 on; any other answer changes nothing |
| SpiSensor.SpiBackend.Stop | stm32/project/simulate/spi_slave/src/spi_slave_sensor.c:196-207 | the peripheral is given up |
| SpiSensor.SpiBackend.Transmit | stm32/project/drivers/spi_slave/src/spi_slave.c:42-55 | an interrupt loads the sensor's next byte and keeps everything else |
| I2cSlave.ReadsFollowTheCursor | stm32/project/drivers/i2c_slave/src/i2c_slave.c:146-300 | on every device, for every interrupt sequence that selects nothing new and stores nothing, the i-th byte loaded after register r was selected is map[(r+i) mod len], map[min(r+i, len-1)], map[r] or 0 according to the configuration |
| I2cSlave.NothingToStore | stm32/project/drivers/i2c_slave/src/i2c_slave.c:169-189 | a run stores nothing when writes are disabled, or when it brings no byte |
| I2cSlave.AccessesMoveTheCursor | stm32/project/drivers/i2c_slave/src/i2c_slave.c:146-300 | for every run without a new selection, loads and stores mixed: the cursor is the counted loads and stores past the selected register, and the map is the stores applied at their cursors |
| I2cSlave.LoadsSeeTheMap | stm32/project/drivers/i2c_slave/src/i2c_slave.c:146-300 | in such a run each loaded byte is the map of that moment at the cursor of that moment, so reads see the writes before them |
| I2cSlave.LoadsAreAccesses | stm32/project/drivers/i2c_slave/src/i2c_slave.c:268-273 | the loads among the accesses are exactly the bytes put on the bus, in order |
| I2cSlave.BeyondTheMap | stm32/project/drivers/i2c_slave/src/i2c_slave.c:146-189 | past the end of the map every run loads zeros and stores nothing |
| I2cSlave.SelectionWorks | stm32/project/drivers/i2c_slave/src/i2c_slave.c:200-266 | an address phase from any state selects the register its bytes name, high byte first |
| I2cSlave.SelectThenRead | stm32/project/drivers/i2c_slave/src/i2c_slave.c:146-300 | on every device: each byte loaded after a register was selected is the one at its position |
| I2cSlave.ReadMatchServes | stm32/project/drivers/i2c_slave/src/i2c_slave.c:200-273 | from any state a read address match starts a transmission in which every interrupt that finds the transmitter empty, and no other, loads the next byte; a restarted read goes on where the last one ended |
| I2cSlave.SilentOutsideReads | stm32/project/drivers/i2c_slave/src/i2c_slave.c:269-300 | after a stop or an error, and while the bus writes, nothing is loaded until the next read address match |
| I2cSlave.LoadsAreOuts | stm32/project/drivers/i2c_slave/src/i2c_slave.c:269-273 | the bytes loaded in a run are what its interrupts put on the bus |
| I2cSlave.Device.SelectAndRead | stm32/project/drivers/i2c_slave/src/i2c_slave.c:191-300 | register number, read address match, any number of transmit interrupts: one byte for each that finds the transmitter empty, the i-th being the one at position i |
| I2cSlave.Device.SelectAndWrite | stm32/project/drivers/i2c_slave/src/i2c_slave.c:169-258 | register number, then data bytes: they land at the cursor if writes are allowed, consecutively if the cursor moves and they fit, and nowhere otherwise |
| I2cSlave.Device.Feed | stm32/project/drivers/i2c_slave/src/i2c_slave.c:302-309 | the interrupts of a run one after the other, with what each puts on the bus |
| I2cSlave.WritesFollowTheCursor | stm32/project/drivers/i2c_slave/src/i2c_slave.c:169-189 | DUT writes land at the analogous positions, or nowhere if not allowed |
| I2cSlave.BurstLandsInPlace | stm32/project/drivers/i2c_slave/src/i2c_slave.c:169-189 | a burst that fits lands in consecutive registers |
| I2cSlave.CursorStep | stm32/project/drivers/i2c_slave/src/i2c_slave.c:157-165 | one increment with the wrap or saturate rule is one access further in the closed form |
| I2cSlave.Device.RegmapRead | stm32/project/drivers/i2c_slave/src/i2c_slave.c:146-167 | loads the byte at the cursor and counts the access |
| I2cSlave.Device.RegmapWrite | stm32/project/drivers/i2c_slave/src/i2c_slave.c:169-189 | stores at the cursor if allowed and inside the map |
| I2cSlave.Device.Interrupt | stm32/project/drivers/i2c_slave/src/i2c_slave.c:191-300 | event and error handlers refine one step of the register file; a byte goes out exactly when the transmitter is empty in the transmit phase, which a read address match enters and a stop or an error leaves |
| I2cSlave.Device.Init | stm32/project/drivers/i2c_slave/src/i2c_slave.c:313-429 | refuses a bad configuration or a busy peripheral without change, else serves the caller's map |
| I2cSlave.Device.Deinit | stm32/project/drivers/i2c_slave/src/i2c_slave.c:431-452 | the driver no longer refers to the map |
| I2cSensor.ValidatedPassesDriver | stm32/project/simulate/i2c/src/i2c_sensor.c:89-215 | whatever the backend's validation accepts, the driver's accepts |
| I2cSensor.LengthSumIsExact | stm32/project/simulate/i2c/src/i2c_sensor.c:261-275 | a wrapped 16-bit length check never lets a copy that fits the map read past the payload |
| I2cSensor.SetupKeepsInv | stm32/project/simulate/i2c/src/i2c_sensor.c:228-367 | live sensors sit in the three pool entries with maps of 1 to 1024 bytes |
| I2cSensor.UpdateKeepsInv | stm32/project/simulate/i2c/src/i2c_sensor.c:369-441 | also after SET_OUTPUT and STOP |
| I2cSensor.InitialMap | stm32/project/simulate/i2c/src/i2c_sensor.c:282-294 | each register starts with its preset byte, or zero where there is none |
| I2cSensor.BlockIs | stm32/project/simulate/i2c/src/i2c_sensor.c:89-215 | the checks over the bytes of the block, in order, and its flag bits |
| I2cSensor.BuiltIs | stm32/project/simulate/i2c/src/i2c_sensor.c:282-348 | what an accepted block makes of a peripheral, byte by byte |
| I2cSensor.SetUpIs | stm32/project/simulate/i2c/src/i2c_sensor.c:228-367 | the reference setup has the effect the byte-level contract states |
| I2cSensor.OverwrittenIs | stm32/project/simulate/i2c/src/i2c_sensor.c:369-414 | likewise SET_OUTPUT |
| I2cSensor.MapIsPresetPlusPuts | stm32/project/simulate/i2c/src/i2c_sensor.c:401-411 | with DUT writes disabled, whatever happens on the bus in between, each register holds what SET_OUTPUT last put there, else its initial value |
| I2cSensor.I2cBackend.AllocSlot | stm32/project/simulate/i2c/src/i2c_sensor.c:58-68 | the lowest free pool entry |
| I2cSensor.Copy | stm32/project/simulate/i2c/src/i2c_sensor.c:289-294 | the copy stays inside the map and overlays exactly the given registers |
| I2cSensor.StartDriver | stm32/project/simulate/i2c/src/i2c_sensor.c:324-348 | a fresh map with zeros and preset, served by a driver that never refuses it |
| I2cSensor.CopyInto | stm32/project/simulate/i2c/src/i2c_sensor.c:407-411 | a host write reaches the map the driver serves |
| I2cSensor.I2cBackend.Activate | stm32/project/simulate/i2c/src/i2c_sensor.c:282-351 | memory, driver and pool entry together; the new heap block is owned by this entry alone |
| I2cSensor.I2cBackend.FreeSlot | stm32/project/simulate/i2c/src/i2c_sensor.c:70-82 | frees exactly the entry's block |
| I2cSensor.I2cBackend.Deactivate | stm32/project/simulate/i2c/src/i2c_sensor.c:432-439 | the driver lets go of the map before it is freed; other sensors keep theirs |
| I2cSensor.I2cBackend.Setup | stm32/project/simulate/i2c/src/i2c_sensor.c:228-367 | over bytes and devices: the first objection, or the lowest idle peripheral serves the addresses, flags (bit 3 wraps, bit 4 allows DUT writes) and preset of the block; any other answer leaves devices and live heap blocks as they were |
| I2cSensor.I2cBackend.SetOutput | stm32/project/simulate/i2c/src/i2c_sensor.c:369-414 | the bytes from offset 4 land from the given register on, in place on the shared map; cursor and everything else stay |
| I2cSensor.I2cBackend.Stop | stm32/project/simulate/i2c/src/i2c_sensor.c:416-441 | that peripheral serves nothing any more, and its block is freed |
| I2cSensor.I2cBackend.Interrupt | stm32/project/drivers/i2c_slave/src/i2c_slave.c:302-309 | an interrupt of one peripheral steps that sensor's register file and no other |
| DigitalOut.SetupAnswer | stm32/project/simulate/digital_out/src/digital_out_sensor.c:175-232 | setup succeeds exactly for a valid request that does not name a free hardware timer, with a free table slot |
| DigitalOut.FailedSetupLeaks | stm32/project/simulate/digital_out/src/digital_out_sensor.c:200-228 | a failing setup changes the timer pool exactly when a valid hardware request finds its timer free, or finds a timer left behind under its pool index |
| DigitalOut.FirstHardwareSetupLeaks | stm32/project/simulate/digital_out/src/digital_out_sensor.c:200-206 | a concrete first command that fails and keeps its timer |
| DigitalOut.SetupKeepsInv | stm32/project/simulate/digital_out/src/digital_out_sensor.c:175-232 | no two live outputs share a pin |
| DigitalOut.UpdateKeepsInv | stm32/project/simulate/digital_out/src/digital_out_sensor.c:234-348 | also after SET_OUTPUT and STOP |
| DigitalOut.SetupSparesPwm | stm32/project/drivers/timer/src/hw_timer.c:167-188 | setup never changes a timer that runs PWM |
| DigitalOut.StopSparesPwm | stm32/project/drivers/timer/src/hw_timer.c:190-207 | nor does stop |
| DigitalOut.HeldIsDetermined | stm32/project/simulate/digital_out/src/digital_out_sensor.c:175-348 | live outputs determine the pool entries in use and the pin bitmap |
| DigitalOut.SetUpIs | stm32/project/simulate/digital_out/src/digital_out_sensor.c:175-232 | the reference setup has the effect the byte-level contract states |
| DigitalOut.DrivenIs | stm32/project/simulate/digital_out/src/digital_out_sensor.c:234-320 | likewise SET_OUTPUT |
| DigitalOut.StopIs | stm32/project/simulate/digital_out/src/digital_out_sensor.c:322-348 | likewise stop |
| DigitalOut.DigitalBackend.Drive | stm32/project/simulate/digital_out/src/digital_out_sensor.c:268-319 | the level is driven, then the pulse is started or fails |
| DigitalOut.DigitalBackend.Expire | stm32/project/simulate/digital_out/src/digital_out_sensor.c:72-99 | when a pulse is over the pin falls back to the level noted; a stale expiry does nothing |
| DigitalOut.DigitalBackend.AllocSlot | stm32/project/simulate/digital_out/src/digital_out_sensor.c:44-54 | the lowest free pool entry |
| DigitalOut.DigitalBackend.Setup | stm32/project/simulate/digital_out/src/digital_out_sensor.c:175-232 | over bytes and tables: the answer, what becomes of the timers, and on success the lowest free entry with pin, timer and level of the block; any other answer leaves entries and pins alone |
| DigitalOut.DigitalBackend.Commit | stm32/project/simulate/digital_out/src/digital_out_sensor.c:208-231 | pin, entry and registration, or all undone |
| DigitalOut.DigitalBackend.PulseMax | stm32/project/drivers/timer/src/hw_timer.c:209-216 | the longest pulse of the token's timer, 0 without one |
| DigitalOut.DigitalBackend.PulseStart | stm32/project/drivers/timer/src/hw_timer.c:218-239 | accepted exactly for lengths from 1 to that maximum |
| DigitalOut.DigitalBackend.SetOutput | stm32/project/simulate/digital_out/src/digital_out_sensor.c:234-320 | a valid level is driven at once, and a pulse notes the opposite level to fall back to; a hardware pulse is always answered with an internal error |
| DigitalOut.DigitalBackend.Stop | stm32/project/simulate/digital_out/src/digital_out_sensor.c:322-348 | entry and pin are given up, and whatever timer pulses for a hardware sensor |
| Bench.EmptyInv | stm32/project/command/src/dispatcher.c:212-221 | the invariant holds after initialisation |
| Bench.HandleKeeps | stm32/project/command/src/dispatcher.c:223-259 | every frame, whatever its type and payload, keeps the invariant over table, pools, timers and claims |
| Bench.StepKeeps | stm32/project/command/src/dispatcher.c:223-259 | so does every interrupt and every pulse expiry between frames |
| Bench.TableIsABijection | stm32/project/command/src/dispatcher.c:29-208 | in every reachable state ids and live pool entries correspond one to one |
| Bench.SharingIsSafe | stm32/project/drivers/timer/src/hw_timer.c:241-313 | in every reachable state no peripheral is DAC master and SPI slave at once, reference counts are the numbers of live channels, each timer's divider is the one its channels asked for, and no pin or channel is shared |
| Bench.FailedSetupChangesNothing | stm32/project/command/src/dispatcher.c:29-89 | a setup answered with an error leaves the engine state as it was, digital-out pulse reservations excepted, and answers id 0; `Dispatcher.Firmware.Setup` says the same of the tables |
| Bench.StopUndoesSetup | stm32/project/command/src/dispatcher.c:149-208 | STOP on the id a setup answered succeeds and restores everything but the id hint, for PWM, DAC, SPI and I2C |
| Bench.StopUndoesDigital | stm32/project/simulate/digital_out/src/digital_out_sensor.c:322-348 | the same for digital-out; the timer pool is restored if and only if the sensor is of the software kind or no timer was left reserved under its pool index |
| Bench.AnswersLiveId | stm32/project/command/src/dispatcher.c:29-89 | a successful setup answers an id that is live afterwards, was not before, and belongs to its protocol |
| Bench.StopAlwaysSucceeds | stm32/project/command/src/dispatcher.c:149-208 | STOP succeeds exactly for live ids and removes exactly that id |
| Bench.SetOutputReaches | stm32/project/command/src/dispatcher.c:91-147 | SET_OUTPUT answers an invalid id exactly for ids that are not live, and never changes the table |
| Bench.ReplyEchoes | stm32/project/command/src/dispatcher.c:223-259 | every reply carries the command's type and sequence number; a setup answers an id exactly when it succeeds |
| Bench.HostReads | bbb/protocol/encoder.py:155-173 | the host reads from an ACK the command's type, the numeric code of its error and the sensor id |
| Bench.Conversation | bbb/protocol/encoder.py:155-173 | frames sent over a line with noise are all delivered, and the host reads back exactly one ACK for each, in order, with its type, sequence number, error code and sensor id |
| Dispatcher.Boot | stm32/project/command/src/dispatcher.c:212-221 | the tables after initialisation stand for the empty engine |
| Effects.RefusalMovesPulses | stm32/project/simulate/digital_out/src/digital_out_sensor.c:200-228 | a refused digital-out setup changes nothing the tables own but the timers |
| Effects.HoldingsAreDetermined | stm32/project/command/src/dispatcher.c:29-208 | the engine state determines what the tables of all backends own: timers, compare registers, bitmaps, chip flags, masks and configurations, claims, pool entries, number of semaphores, what the I2C peripherals serve |
| Effects.SetUpIs | stm32/project/command/src/dispatcher.c:29-89 | a setup of protocol 1, 2, 3, 5 or 6 has on the tables the effect its backend's contract states over the bytes, and changes nothing another backend owns |
| Effects.OutputIs | stm32/project/command/src/dispatcher.c:91-147 | likewise SET_OUTPUT of a live id |
| Effects.StoppedIs | stm32/project/command/src/dispatcher.c:149-208 | likewise STOP of a live id, which succeeds |
| Effects.HandledIs | stm32/project/command/src/dispatcher.c:223-259 | for every frame type and payload: the answer, its id, the effect on the tables and the words sent to the DAC chips |
| Dispatcher.Firmware.Handle | stm32/project/command/src/dispatcher.c:223-259 | over the concrete tables of all backends, a frame has exactly the effect its bytes ask for, refines the reference engine and is answered with its reply |
| Dispatcher.Firmware.Dispatch | stm32/project/command/src/dispatcher.c:223-259 | the switch over frame types performs the reference engine's step |
| Dispatcher.Firmware.Setup | stm32/project/command/src/dispatcher.c:29-89 | the byte-level effect of the named protocol; answered with an error it leaves sensor slots, heap blocks and everything the tables of the backends own as they were, the timers of a digital-out setup excepted |
| Dispatcher.Firmware.Route | stm32/project/command/src/dispatcher.c:46-81 | the backend of the named protocol does its reference setup, an unknown one is unsupported; only an I2C setup allocates a heap block |
| Dispatcher.Firmware.SetupAndStop | stm32/project/command/src/dispatcher.c:29-208 | a setup, and if it succeeds STOP on its id, restores sensor slots, heap blocks and everything the tables own, for PWM, DAC, SPI and I2C |
| Dispatcher.Firmware.StopEntry | stm32/project/command/src/dispatcher.c:160-208 | the backend lets go of a live sensor and its heap block, then its slot is cleared; this cannot fail |
| Dispatcher.Firmware.SetOutput | stm32/project/command/src/dispatcher.c:91-147 | the byte-level effect on the sensor of a live id, on nothing else; any other id is invalid and changes nothing |
| Dispatcher.Firmware.RouteOutput | stm32/project/command/src/dispatcher.c:91-147 | the switch over protocols refines the reference SET_OUTPUT; pool indices from the table are always in range |
| Dispatcher.Firmware.Stop | stm32/project/command/src/dispatcher.c:149-208 | the byte-level effect on the sensor of a live id, which always succeeds, clears exactly its slot and frees exactly its heap block; any other id is invalid and changes nothing |
| Dispatcher.Firmware.RouteStop | stm32/project/command/src/dispatcher.c:149-208 | look-up, backend and table perform the reference STOP |
| Dispatcher.Firmware.SetupPwm | stm32/project/simulate/pwm/src/pwm_sensor.c:134-241 | a PWM setup keeps every other backend's tables in order |
| Dispatcher.Firmware.SetupDac | stm32/project/simulate/dac/src/dac_sensor.c:104-275 | a DAC setup keeps the SPI slaves on the shared driver in order |
| Dispatcher.Firmware.SetupSpi | stm32/project/simulate/spi_slave/src/spi_slave_sensor.c:43-167 | an SPI setup keeps the DAC chips on the shared driver in order |
| Dispatcher.Firmware.SetupI2c | stm32/project/simulate/i2c/src/i2c_sensor.c:228-367 | an I2C setup touches no other backend, and owns one new heap block exactly when it succeeds |
| Dispatcher.Firmware.SetupDigital | stm32/project/simulate/digital_out/src/digital_out_sensor.c:175-232 | a digital-out setup keeps the PWM tables on the shared timers in order |
| Dispatcher.Firmware.I2cInterrupt | stm32/project/drivers/i2c_slave/src/i2c_slave.c:302-309 | an interrupt between commands is one engine step |
| Dispatcher.Firmware.PulseExpires | stm32/project/simulate/digital_out/src/digital_out_sensor.c:72-99 | the end of a pulse between commands is one engine step |
| Dispatcher.Firmware.SpiInterrupt | stm32/project/drivers/spi_slave/src/spi_slave.c:28-56 | likewise for the SPI slave |
| Session.SendAck | stm32/project/protocol/src/protocol_encoder.c:63-82 | the bytes of a reply are the encoding of its ACK frame |
| Session.OnByte | stm32/project/app/src/app_init.c:68-76 | one received byte, over the concrete parser and tables: a completed frame is handled and answered, anything else changes only the parser |
| Session.Run | stm32/project/app/src/app_init.c:50-78 | for every input and environment the bytes sent are the encoded replies to exactly the frames the input contains, in order, and the tables stand for the engine after those commands |
| StmLink.StepKeepsInv | bbb/comms/stm_link.py:146-236 | pending table, futures and wire stay consistent over every coroutine step inside the window, commands written while close() waits for the reader included |
| StmLink.AcksMatch | bbb/comms/stm_link.py:316-342 | a returned ACK is exactly the one the firmware sent for that very command, error code and sensor id included; the mismatch error never fires, no waiter is resolved twice, every frame goes to a waiter or the hook |
| StmLink.AnsweredOnce | stm32/project/command/src/dispatcher.c:223-259 | no run answers a command twice, so that ACK is the only one there is for it |
| StmLink.ResumeOutcome | bbb/comms/stm_link.py:316-342 | a resolved command returns its own answer, a cancelled one times out, a failed one reports the closed link |
| StmLink.OutcomesHaveCauses | bbb/comms/stm_link.py:316-342 | a timeout is reported only after the deadline, a closed link only after close |
| StmLink.DeadlineEndsIt | bbb/comms/stm_link.py:318-342 | a waiting command can always end at its deadline, and then frees its number |
| StmLink.CloseReleasesAll | bbb/comms/stm_link.py:144-163 | close fails every command still waiting and no other, empties the table and ends writing |
| StmLink.TableHoldsUnfinished | bbb/comms/stm_link.py:318-342 | the table of pending commands holds unfinished commands only, each under its own number, and is empty once all are finished, failed writes included |
| StmLink.ArrivalResolvesItsCommand | bbb/comms/stm_link.py:216-236 | an ACK arriving while its command waits resolves that command; any other goes to the hook |
| StmLink.WindowIsTight | bbb/protocol/encoder.py:242-246 | with 256 newer commands a late ACK is misdelivered, as a wrong result or as a mismatch error |
| StmLink.SeqCounter.Next | bbb/protocol/encoder.py:242-246 | returns the value and advances it modulo 256 |
| StmLink.SeqCounter.Take | bbb/protocol/encoder.py:221-251 | successive commands get the sequence numbers the link model uses |
| Bus.StepKeepsInv | backend/internal/bus/bus.go:68-142 | lock, identity, close and counting facts are kept by every step of every goroutine |
| Bus.BusIsSafe | backend/internal/bus/bus.go:68-142 | over all interleavings: no send on a closed channel and no second close; attempts are received, buffered, dropped or held by a publisher about to count the drop, in order; one publisher at most escalates a subscription |
| Bus.NoDeadlock | backend/internal/bus/bus.go:68-142 | whenever a goroutine is inside an operation some goroutine can go on, and none waits for the write lock while holding the read lock |
| BusDelivery.PublishReachesSubscribers | backend/internal/bus/bus.go:68-84 | in every run, each subscription in the map when a Publish takes the read lock, with an empty or the event's session, is offered the event exactly once before the lock is given back: appended to its buffer, or counted as a drop with 64 events waiting; no other subscription is touched |
| BusDelivery.EscalationIsCarriedOut | backend/internal/bus/bus.go:79-91 | a publisher whose count is the 256th drop keeps the subscription to close, and once it is idle again the subscription is closed and out of the map |
| BusDelivery.CloseCloses | backend/internal/bus/bus.go:128-142 | when Close returns both channels are closed and the map does not hold the subscription |
| BusDelivery.SubscribeJoins | backend/internal/bus/bus.go:99-112 | when Subscribe returns a new subscription with its filter is in the map |
| BusDelivery.LeavesByClose | backend/internal/bus/bus.go:128-132 | a subscription leaves the map only when its own Close deletes it |

## Left out

- Register-level setup of clocks, pins, interrupts and peripherals, and pin electrical modes: only ownership flags, driver state, compare registers, output levels, DAC words and I2C addresses are kept.
- Cross-protocol pin conflicts: PWM and digital-out keep separate bitmaps and the others none, so there is no claim to state.
- SPI master transfers as interrupts: a transfer is one step whose outcome the environment chooses; the busy flag left behind by a timed-out transfer shows only as later failures.
- `spi_master` baud-rate search and I2C timing registers: hardware timing.
- Software timers of digital-out: whether one exists, whether the RTOS accepts its commands, and what an expiry does; when it comes, and the tick arithmetic, are timing.
- DigitalOut.FailedSetupLeaks: the timer-reservation claim of all-or-nothing setup does not hold for digital-out, so the lemma gives the exact condition instead.
- Bench.StopUndoesSetup: leaves digital-out out, because its hardware kind may free a timer left behind by an earlier failed setup; `Bench.StopUndoesDigital` gives the exact condition.
- Dispatcher.Firmware.SetupAndStop: leaves digital-out out for the same reason.
- Uart.ProtocolTask: the no-lost-wake-up claim starts with the task's first wake-up; bytes received before the task registers itself leave no notification.
- Uart.Usart.Interrupts: takes task-level loads and stores of single indices, bytes and control bits as atomic, as they are on the core; how many interrupts come is any number, fixed in advance and unknown to the code.
- Dispatcher.Firmware.I2cInterrupt: host writes into a register map are atomic against the interrupt; torn reads during the copy are not modelled.
- Bus.BusIsSafe: subscription ids are unbounded numbers; the escalation bound is stated up to the wrap of the 64-bit drop counter.
- StmLink.AcksMatch: the serial device, the event loop and wall-clock time are steps in any order; `sync` is a series of commands over the same table.
- Session.Run: starts from the bytes taken out of the receive ring and ends with the bytes offered to the transmit ring; `Uart.ProtocolTask` and `Uart.Usart.TxPush` state what the rings do with them.
- `protocol_send_error`, status reports and the Python command builders: easy members over the same encoder.
- Session allocation in SQL, NATS, HTTP, WebSocket, MinIO, OTA download, configuration, generated code and scripts: plumbing around libraries.
