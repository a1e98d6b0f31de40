# Verified models of the Zephyr tutorial programs

This project models the programs of the repository that hold real state or arithmetic, and
proves what they are for. Each program has one module; the UART parser has several.

Concurrent programs are step machines: `State`, a total function `Step` whose steps are the
statements of the threads and interrupt handlers (a blocked one does nothing), and `Exec`, which
runs any sequence of steps. Every sequence is thus a schedule, and the main results hold for all
of them. Safety results are matched by results on progress: exactly when a thread waits, and that
what was accepted is delivered. Each machine has a class beside it that does the same steps in
place, on arrays and fields, and is proved to take the machine's steps under every schedule.

Zephyr's own objects are not in the repository. They are given their documented contracts only:
the semaphore saturates at its limit, the ring buffer and the message queue are bounded and in
order, the slab hands out any free block, the mutex is exclusive, rescheduling replaces the
pending deadline, and the LED pin reads back what was last written. The k_fifo of `fifo` is
modelled at the level of its intrusive links, because that program's question is whether they
survive.

## The programs

- **uart** (`CStrings`, `UartParser`, `UartFraming`, `UartInvariance`, `UartMachine`,
  `UartBatching`, `UartSchedules`, `UartResponse`, `UartApp`). `UartParser` is the parser thread's
  loop body as a fold over bytes. `UartFraming` is an independent line-at-a-time reading, proved
  equal to the fold. `UartMachine` interleaves interrupt handler and thread. `UartBatching`
  computes what a whole interrupt does, and `UartResponse` how soon a byte is processed.
  `UartSchedules` asks whether the history is fixed by the input once the system is at rest, and
  answers it exactly: not when an unfinished last line has 255 bytes or more, since its bytes may
  be drained (reporting an overflow) or left in the ring. `UartApp` is the program with
  `temp[256]` and its 8-bit index, for any table of message texts; `Text` is the program's own.
- **memslab** (`MemSlab`). Line 47 of the source frees `&rx`, the address of a local variable;
  the program's own README.md (lines 36 and 71) records this as a mistake and gives `rx`. The freed
  address is a parameter of the machine. Conservation of blocks holds on every schedule exactly when
  it is `rx`, and as written up to the first free; the other results are about the corrected version.
- **fifo** (`FifoRing`). Nothing stops the producer from reusing a node that is still outstanding.
  A run is read in order for ever if no write finds four nodes outstanding, and otherwise it is
  misread, unless `seq` has gone all the way round since. Such a write is never more than eight
  producer steps away.
- **bava_counter_driver** (`BavaCounter`). Lock, read, load, store and unlock are separate steps of
  any number of threads; the results are those of an atomic counter in lock order, and that is
  what each caller finds in `*val`.
- **interrupt** (`Debounce`). A millisecond machine against an offline definition of bursts. The
  edge times alone decide when the work runs, unless two edges are exactly 500 ms apart.
- **msgq** (`MessageQueue`). Accounting of a copy-by-value queue, a ring of five slots, whose sender
  reuses one buffer.
- **linear_model_tflite** (`Quantizer`, `HeaderFile`). int8 quantisation over the reals, and the
  C-header printer with a reader that inverts it.
- **pwm** (`PwmRamp`). The ramp's closed form, and exactly the periods for which it holds: the sum
  one step above the last level must not exceed 2^32, as it does from 4,090,445,060 on.

Where a source value is a C `int` or `uint32_t`, wrap-around is written out where it can be
reached (`seq` in memslab and fifo, the driver's counter, the pulse width).

## Model

| member | source | states |
|---|---|---|
| UartFraming.FramingLaw | uart/src/main.c:60-97 | a line of n bytes gives exactly n div 255 overflow reports, and its last n mod 255 bytes are the command |
| UartFraming.IntactExactlyUpTo254 | uart/src/main.c:91-96 | a line arrives whole, without overflow, if and only if it has at most 254 bytes |
| UartFraming.StreamLaw | uart/src/main.c:57-98 | over any stream, the byte-by-byte parser has the events, LED and buffer of the line-by-line reading |
| UartFraming.SplitRoundTrip | uart/src/main.c:61-89 | cutting a stream at its newlines loses nothing |
| UartFraming.LinesArePlain | uart/src/main.c:61-89 | no line of the cut holds a newline |
| UartFraming.SplitUnique | uart/src/main.c:61-89 | there is no other way to cut it |
| CStrings.EqualIgnoringCaseExactly | uart/src/main.c:70-79 | strcasecmp finds two strings equal iff they have the same letters, capital or not, one by one |
| UartParser.VerbExactly | uart/src/main.c:69-86 | which lines are LED ON, LED OFF, STATUS, empty or unknown, letter by letter, as an iff |
| UartFraming.CommandTable | uart/src/main.c:69-88 | the three commands, the empty line and anything else get their documented replies and LED changes, in any case, with LF or CRLF |
| UartFraming.LedLaw | uart/src/main.c:70-77 | the LED is on iff some line switched it on and no later line switched it off |
| UartFraming.StatusLaw | uart/src/main.c:78-82 | every STATUS reply reports the pin level at its own position in the history |
| UartFraming.PromptLaw | uart/src/main.c:88-95 | one prompt per newline, one overflow report per 255 bytes of a line, finished or not |
| UartInvariance.CaseLaw | uart/src/main.c:70-78 | lower-casing a whole stream leaves the history and the LED unchanged |
| UartInvariance.CaseBlind | uart/src/main.c:70-78 | streams equal up to letter case have the same history |
| UartInvariance.CrlfLaw | uart/src/main.c:62-67 | on one line of any length, CRLF acts as LF exactly when the line is safe (no frame completed by the CR, no CR doubled after an empty line or a command word) |
| UartInvariance.CrlfStreamLaw | uart/src/main.c:60-96 | on any stream, sending CRLF for LF leaves history and final state the same iff every complete line is CrlfSafe; otherwise neither history is a prefix of the other |
| UartInvariance.ShortLinesAreSafe | uart/src/main.c:62-67 | payloads of at most 253 bytes that do not end in CR are safe |
| UartMachine.ScheduleLaw | uart/src/main.c:24-98 | on every schedule, drained bytes then ring are the received bytes minus those refused by a full ring, and the history is the line-by-line reading of the bytes processed |
| UartMachine.BufferLaw | uart/src/main.c:52-60 | on every schedule temp[0..idx) is exactly the current line since its last reset, and idx is at most 254 |
| UartMachine.NoLostWakeup | uart/src/main.c:33-60 | a thread at its semaphore take with a newline in the ring finds the semaphore given or about to be |
| UartMachine.FullRingIsReleased | uart/src/main.c:33-60 | a newline dropped on a full ring still wakes the blocked thread |
| UartMachine.ScheduleIndependence | uart/src/main.c:24-98 | same input, nothing dropped: histories differ only in progress, and a run that processed all its input has the history of that input |
| UartBatching.InterruptLaw | uart/src/main.c:33-39 | one interrupt keeps, in order, exactly the bytes that fit, refuses the rest, and makes the semaphore available iff it brought a newline |
| UartBatching.InterruptDropsNothing | uart/src/main.c:33-36 | an interrupt loses nothing iff all it brings fits the ring |
| UartBatching.BatchingLaw | uart/src/main.c:24-98 | runs of whole interrupts and thread steps that bring the same bytes and lose none have the same history up to progress, however the bytes are cut into interrupts |
| UartResponse.ResponseLaw | uart/src/main.c:33-98 | with a newline in the ring and its give done, the bytes up to position p are processed exactly after a number of thread steps fixed beforehand, 2 (p + 1) or one more, whatever interrupts come in between |
| UartMachine.ThreadSettles | uart/src/main.c:57-98 | left alone, the thread blocks after a computed number of steps with the ring drained and processed, unless it was blocked already |
| UartMachine.ThreadNeverIdlesEarly | uart/src/main.c:57-98 | it does not block before that number of steps |
| UartMachine.EveryRunSettles | uart/src/main.c:57-98 | every run followed by that many thread steps is at rest, with no complete line left in the ring unless the interrupt handler still has to give |
| UartMachine.WakeLaw | uart/src/main.c:57-98 | one wake-up parses exactly what the ring holds and consumes the semaphore |
| UartSchedules.HistoryAtRest | uart/src/main.c:24-98 | at rest with nothing dropped only part of an unfinished line is in the ring, and the history is that of the input without those bytes |
| UartSchedules.SettlesAlikeExactly | uart/src/main.c:24-98 | all drop-free runs of an input come to rest with the same history iff the first 256 bytes hold no newline or the unfinished last line is shorter than 255 bytes; likewise among runs of whole interrupts only |
| UartApp.TerminatedBuffer | uart/src/main.c:61-69 | both ways of terminating the line leave the command as the buffer's C string, whatever stale bytes follow |
| UartApp.WirePromptLaw | uart/src/main.c:88-95 | on the wire, '>' appears once per newline parsed and once per overflow |
| UartApp.CommandOnWire | uart/src/main.c:70-88 | each command is answered by the documented bytes and pin change, an unknown one by the error text and an empty line by nothing, then the prompt, in any case and with either line ending |
| UartApp.OverflowOnWire | uart/src/main.c:90-96 | 255 bytes without a newline send the overflow text and a prompt, and leave an empty line |
| UartApp.App.constructor | uart/src/main.c:18-53 | the program starts in the machine's initial state, with arbitrary bytes in temp |
| UartApp.App.SendString | uart/src/main.c:43-48 | sends exactly the C string it is given |
| UartApp.App.RingPut | uart/src/main.c:34-36 | the put step: a full ring drops the byte |
| UartApp.App.SemGive | uart/src/main.c:36-38 | the give step: the semaphore saturates |
| UartApp.App.UartCallback | uart/src/main.c:24-41 | one interrupt does the put and give steps of all its bytes, or nothing if there is no update or no data |
| UartApp.App.SemTake | uart/src/main.c:58 | the take step |
| UartApp.App.RingGet | uart/src/main.c:60 | the get step, into temp[idx], leaving temp[0..idx) alone |
| UartApp.App.Dispatch | uart/src/main.c:69-86 | the LED and the replies of each verb |
| UartApp.App.Terminate | uart/src/main.c:63-67 | writing the NUL leaves the command as the C string in temp |
| UartApp.App.EndLine | uart/src/main.c:62-89 | a newline does what the fold does with the line, independently of stale bytes |
| UartApp.App.KeepByte | uart/src/main.c:90-97 | any other byte is kept, or resets the buffer at index 254 |
| UartApp.App.ProcessByte | uart/src/main.c:61-97 | the processing step of the machine |
| UartApp.App.ProducerThread | uart/src/main.c:50-100 | the nested loops, run until they block, parse exactly what the ring held |
| UartApp.App.Interleave | uart/src/main.c:24-100 | the program follows the machine on every schedule |
| MemSlab.ConservationExactly | memslab/src/main.c:25-47 | every block is in exactly one of free set, producer, FIFO, consumer on every schedule iff the freed address is rx |
| MemSlab.ConservedInRunExactly | memslab/src/main.c:25-47 | in any one run blocks are conserved iff the freed address is rx or nothing has been freed yet |
| MemSlab.FreeingRefRxLosesBlock | memslab/src/main.c:47 | freeing &rx loses the block on its first trip |
| MemSlab.NeverBothBlocked | memslab/src/main.c:25-42 | producer and consumer never wait for each other: on every run some step changes the state |
| MemSlab.BlockedExactly | memslab/src/main.c:25-42 | the producer waits exactly while no free block can be had, the consumer exactly on an empty FIFO |
| MemSlab.ProducerTurn | memslab/src/main.c:25-31 | a turn gives any free block the next id and puts it at the end of the FIFO |
| MemSlab.ConsumerTurn | memslab/src/main.c:42-47 | a turn logs the id of the first block and frees it, or &rx |
| MemSlab.AllConsumed | memslab/src/main.c:21-47 | any run followed by at most 32 consumer steps has logged every id pushed, with every block pushed back in the slab |
| MemSlab.TenArePushed | memslab/src/main.c:12-31 | the producer alone pushes exactly ten blocks |
| MemSlab.IdsLaw | memslab/src/main.c:21-47 | the consumer logs 0, 1, 2, ... mod 2^32, at most 10 behind; the id logged after the hand-over is the one pushed |
| MemSlab.App.Produce | memslab/src/main.c:23-33 | the producer's steps |
| MemSlab.App.Consume | memslab/src/main.c:41-49 | the consumer's steps |
| MemSlab.App.Interleave | memslab/src/main.c:15-50 | the program follows the machine on every schedule |
| FifoRing.OrderLaw | fifo/src/main.c:27-51 | while every write finds fewer than four nodes outstanding, the intrusive list ends, its nodes are distinct and hold the ids to come, and ids 1, 2, 3, ... were logged |
| FifoRing.BlockedExactly | fifo/src/main.c:27-47 | the producer never waits, the consumer exactly on an empty queue |
| FifoRing.ProducerTurn | fifo/src/main.c:29-34 | a turn writes the next id into node seq mod 4 and appends it |
| FifoRing.ConsumerTurn | fifo/src/main.c:47-49 | a turn takes the first node and logs its id |
| FifoRing.AllConsumed | fifo/src/main.c:27-51 | any run without an overrun, followed by at most nine consumer steps, has logged every id queued and emptied the list |
| FifoRing.OldestIsOverwritten | fifo/src/main.c:29-31 | the first write of a run that finds four nodes outstanding overwrites the oldest of them |
| FifoRing.RunIsSafeExactly | fifo/src/main.c:27-49 | a run without an overrun is read in order for ever; one with an overrun and at most 2^32 writes is not |
| FifoRing.LapHidesOverrun | fifo/src/main.c:24-49 | 2^32 is the best bound: a run with 2^32 + 1 writes and overruns after which nothing is misread |
| FifoRing.WriteIsSafeExactly | fifo/src/main.c:29-49 | up to the first overrun, a write leaves the consumer reading in order iff it found fewer than four nodes outstanding |
| FifoRing.DoublePutTruncates | fifo/src/main.c:29-34 | at the first overrun, queueing a node that is still queued leaves one node of four in the list |
| FifoRing.OverrunIsNear | fifo/src/main.c:27-36 | from any run without an overrun at most eight producer steps lead to the next one, whatever the consumer holds |
| FifoRing.OverrunSchedules | fifo/src/main.c:27-49 | schedules from the start that overrun a waiting consumer and one that holds a node |
| FifoRing.SlotSurvivesWrap | fifo/src/main.c:24-30 | the slot order survives the 32-bit wrap of seq |
| FifoRing.App.FifoPut | fifo/src/main.c:34 | the list append, on the nodes' own links |
| FifoRing.App.Produce | fifo/src/main.c:27-36 | the producer's steps |
| FifoRing.App.Consume | fifo/src/main.c:45-52 | the consumer's steps |
| FifoRing.App.Interleave | fifo/src/main.c:20-52 | the program follows the machine on every schedule |
| BavaCounter.RefinesAtomicCounter | bava_counter_driver/drivers/counter/bava_counter/bava_counter.c:29-48 | for any number of threads: mutual exclusion, and results in lock order are those of an atomic counter |
| BavaCounter.GetValueLaw | bava_counter_driver/drivers/counter/bava_counter/bava_counter.c:31-32 | the k-th get since the last reset returns start + k * step, wrapped; unwrapped exactly while that is an int |
| BavaCounter.GetAfterReset | bava_counter_driver/drivers/counter/bava_counter/bava_counter.c:31-46 | a get with n gets and no reset before it since the last reset, or since init, returns the int congruent to start + n * step |
| BavaCounter.BlockedExactly | bava_counter_driver/drivers/counter/bava_counter/bava_counter.c:29-48 | a thread in the driver waits exactly for another one's lock |
| BavaCounter.LockIsReleased | bava_counter_driver/drivers/counter/bava_counter/bava_counter.c:29-48 | in any run at most four steps of the lock's holder finish its call and free the lock |
| BavaCounter.EpochDistinct | bava_counter_driver/drivers/counter/bava_counter/bava_counter.c:31-46 | two gets of one epoch agree iff their distance times step is a multiple of 2^32, so never in int range with nonzero step |
| BavaCounter.CounterClosedForm | bava_counter_driver/drivers/counter/bava_counter/bava_counter.c:32-46 | the atomic counter is start + gets since the last reset * step, wrapped |
| BavaCounter.Device.constructor | bava_counter_driver/drivers/counter/bava_counter/bava_counter.c:60-70 | init starts the machine at the start offset |
| BavaCounter.GetUninterrupted | bava_counter_driver/drivers/counter/bava_counter/bava_counter.c:29-34 | a get that finds the lock free and is not interrupted returns the counter and adds the step |
| BavaCounter.ResetUninterrupted | bava_counter_driver/drivers/counter/bava_counter/bava_counter.c:44-48 | likewise a reset sets the counter to the start offset |
| BavaCounter.Device.EnterGet | bava_counter_driver/drivers/counter/bava_counter/bava_counter.c:22-29 | a NULL val is refused without touching the device; any other call goes on to the lock |
| BavaCounter.Device.EnterReset | bava_counter_driver/drivers/counter/bava_counter/bava_counter.c:39-44 | a reset goes to the lock |
| BavaCounter.Device.Lock | bava_counter_driver/drivers/counter/bava_counter/bava_counter.c:29-44 | the lock is taken iff it is free; otherwise the thread waits on |
| BavaCounter.Device.Read | bava_counter_driver/drivers/counter/bava_counter/bava_counter.c:31 | the caller's int is set to the counter |
| BavaCounter.Device.Load | bava_counter_driver/drivers/counter/bava_counter/bava_counter.c:32 | the load of the increment |
| BavaCounter.Device.Store | bava_counter_driver/drivers/counter/bava_counter/bava_counter.c:32 | the store of the increment |
| BavaCounter.Device.Clear | bava_counter_driver/drivers/counter/bava_counter/bava_counter.c:46 | the counter is set to the start offset |
| BavaCounter.Device.UnlockGet | bava_counter_driver/drivers/counter/bava_counter/bava_counter.c:34-36 | the call returns 0 with the atomic counter's answer in *val, even if threads share a pointer |
| BavaCounter.Device.UnlockReset | bava_counter_driver/drivers/counter/bava_counter/bava_counter.c:48-52 | the reset returns 0 |
| BavaCounter.Device.Interleave | bava_counter_driver/drivers/counter/bava_counter/bava_counter.c:20-53 | the driver follows the machine on every schedule of any number of threads |
| Debounce.DebounceLaw | interrupt/src/main.c:18-35 | for all edges, samples and timings the work runs once per maximal burst that is over, 500 ms after its last edge |
| Debounce.EndsIncrease | interrupt/src/main.c:32-35 | the burst ends found edge by edge are in order, each found once |
| Debounce.EndsExactly | interrupt/src/main.c:32-35 | they are exactly the edges that no edge follows, or that a split follows |
| Debounce.HistoryLaw | interrupt/src/main.c:22-35 | the recorded edges are those of the run, and the firings read, in order, the levels there were when work was due |
| Debounce.LedLaw | interrupt/src/main.c:22-25 | the LED is on iff the work has read the level 1 an odd number of times |
| Debounce.ScheduleIndependence | interrupt/src/main.c:32-35 | for every possible sequence of edge times, all runs that end with nothing pending fire at the same times iff no two consecutive edges are exactly 500 ms apart |
| Debounce.App.IsrHandle | interrupt/src/main.c:32-35 | the rescheduling step replaces the deadline |
| Debounce.App.WorkHandle | interrupt/src/main.c:18-28 | the handler's step samples, then toggles only on 1 |
| Debounce.App.PassTime | interrupt/src/main.c:34 | a millisecond passes unless work is due in it |
| Debounce.App.Run | interrupt/src/main.c:18-35 | the program follows the machine on every course of events |
| MessageQueue.AccountingLaw | msgq/src/main.c:24-48 | taken then queued messages are those of the successful puts in order; taken + queued + failed = attempts; at most 5 queued |
| MessageQueue.ReceivedLaw | msgq/src/main.c:25-42 | received ids strictly increase and every count is id mod 256, though the sender overwrites its buffer |
| MessageQueue.AcceptedComplete | msgq/src/main.c:44-48 | no successful put is missing from the accepted messages |
| MessageQueue.BlockedExactly | msgq/src/main.c:25-44 | the sender waits exactly at a full queue, the receiver at an empty one; a put may give up exactly on a full queue |
| MessageQueue.SenderTurn | msgq/src/main.c:40-45 | with room, turn i puts message i at the end of the queue |
| MessageQueue.SenderGivesUp | msgq/src/main.c:40-48 | with no room and a timeout, turn i loses message i and nothing else |
| MessageQueue.ReceiverTurn | msgq/src/main.c:25-26 | a turn takes the first message and logs it |
| MessageQueue.AllReceived | msgq/src/main.c:22-48 | any run followed by at most eleven receiver steps has received exactly the messages of the successful puts, in order |
| MessageQueue.App.Send | msgq/src/main.c:38-51 | the sender's steps |
| MessageQueue.App.TimeOut | msgq/src/main.c:44-48 | a put may give up only on a full queue |
| MessageQueue.App.Receive | msgq/src/main.c:22-28 | the receiver's steps |
| MessageQueue.App.Interleave | msgq/src/main.c:16-52 | the program follows the machine on every schedule and pattern of timeouts |
| Quantizer.Monotone | linear_model_tflite/src/main.cpp:53-58 | quantising is monotone and always gives an int8 |
| Quantizer.ErrorLaw | linear_model_tflite/src/main.cpp:53-67 | for an int8 zero point the round-trip error is below one step iff nothing was clamped |
| Quantizer.TowardZero | linear_model_tflite/src/main.cpp:53-67 | for an int8 zero point every code, clamped or not, stands for a value between 0 and the input |
| Quantizer.CodeRoundTrip | linear_model_tflite/src/main.cpp:53-67 | quantising a dequantised code returns the code, for every code |
| Quantizer.DeadZone | linear_model_tflite/src/main.cpp:53-58 | exactly the inputs less than one step from zero get the zero point; at an end of the range, those beyond it as well |
| Quantizer.Infer | linear_model_tflite/src/main.cpp:44-77 | turn k logs 1 + 1.5 k, its code, and the answer dequantised with the output's scale and zero point, until an inference fails |
| Quantizer.CodesNeverDecrease | linear_model_tflite/src/main.cpp:52-75 | the codes never decrease over the run, and stay at 127 once there |
| HeaderFile.RoundTrip | linear_model_tflite/model_src/main.py:46-51 | reading the printed C recovers name, bytes and length, for every byte sequence and all three printers |
| HeaderFile.StylesAgree | mcc/model_src/mcc.py:34-39 | the comma-only and padded printers print the same C tokens |
| HeaderFile.HexByteIs | linear_model_tflite/model_src/main.py:47 | each byte is 0x and its two lower-case hexadecimal digits |
| HeaderFile.PrintedText | linear_model_tflite/model_src/main.py:47-51 | the exact text of all three printers: element i and its separator at fixed places, and a length without leading zeros |
| HeaderFile.PrintInjective | sine_model_tflite/model_src/sine_model.py:57-62 | different names or arrays never print alike, in any styles |
| PwmRamp.RampExactly | pwm/src/main.c:29-42 | the n-th pulse is (n mod levels) * (period / 20), with period / (period / 20) + 1 levels, for every n iff the period is below 4,090,445,060; below 20 every pulse is zero; no pulse exceeds the period |
| PwmRamp.StepOf | pwm/src/main.c:13 | STEP is the largest s with 20 s up to the period |
| PwmRamp.RampWraps | pwm/src/main.c:37-42 | for any period from there on the turn after the 21 levels sets 21 * STEP - 2^32, not zero |
| PwmRamp.SweepLaw | pwm/src/main.c:29-42 | for every period from 20 on, failing ones too, the pulses are sweeps by STEP up to the period, each starting at zero or at the last one's excess over 2^32, which is below STEP |
| PwmRamp.RampFailsAtTheTop | pwm/src/main.c:37-42 | the largest period fails: turn 21, from 0, sets 214,748,348 |
| PwmRamp.RampForUsualPeriods | pwm/src/main.c:13-42 | the closed form holds whenever period + STEP is below 2^32 |
| PwmRamp.LevelCount | pwm/src/main.c:13-42 | between 21 and 40 levels; 21 iff period mod 20 is below STEP, in particular from 400 on |
| PwmRamp.Ramp | pwm/src/main.c:17-46 | main sets the pulses of the recurrence in turn, stops at the first error, and returns -ENODEV when the controller is not ready |

## Left out

- The start-up banner and device checks of uart's `main`: sent once by another thread, and outside the parser.
- The `char` type stands for a byte: the UART results hold for every `char`, the 256 bytes among them.
- Signed printing of ids: memslab and fifo ids are kept as the 32-bit pattern of `seq`, not as the signed `int` that `%d` prints.
- What a freed `&rx` does to the consumer's stack once the slab hands that address out again.
- MemSlab.App.Produce: does not model sleeping; a thread that sleeps is one that is not scheduled.
- Debounce.App.Run: does not model the rounding of 500 ms to system ticks, nor delay of due work on the system work queue.
- BavaCounter.Device.EnterGet: does not model the readiness and missing-function checks of the inline wrappers in `bava_counter.h`.
- BavaCounter.GetValueLaw: takes signed overflow to wrap in two's complement, which the C standard leaves undefined.
- Quantizer.ErrorLaw: is over the reals, so does not model float rounding, nor quotients too large for `int32_t`.
- Quantizer.Infer: does not model the inference itself, whose answers are an input.
- HeaderFile.RoundTrip: asks for a name made of letters, digits and underscores, as a C identifier is; an empty array is read back although ISO C11 itself wants an element.
- The sine and mcc quantisers: the first narrows before clamping and the second does not clamp, so the linear model's laws are not claims about them.
- ble, wifi, sock, i2c, spi, dma, nvs, pm: sequences of foreign calls with little state of their own.
- firstapp, hwins, threadeg, schedule, sync, workqueue, customq: LED toggling whose interest lies in kernel code that is not in the repository.
- Model training, exported model data, logging text, devicetree, Kconfig and CMake.
