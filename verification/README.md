# Verified model of the ATmega328p motor firmware and its kernel

A Dafny model of the firmware's data logger, of the small cooperative kernel under it, and of the
tasks that drive both. Objects of the source are classes here, with the same fields and linked lists;
every method is tied to a function on values (`View()` or `State()`), and the laws are proved about
those functions, over whole runs.

`dafny verify dfyconfig.toml` checks the project.

## What is modelled

- **The crash-tolerant log.** `RingLog` holds the ring arithmetic for any number of slots. `Iic` is the
  byte-addressed EEPROM behind the polled bus driver, where each transfer may fail at any byte;
  `E2Driver` is the page view of it. `LogModel` is the logger as a state machine on values: task steps
  with any bus outcome, messages, and power cuts in the middle of a step. `LogTask` is the class with
  its linked list, shown to take exactly those steps, with the outcomes that the bus's answers lead to.
  `CrashSafety`, `ExactlyOnce`, `Failures`, `Restart`, `Readback`, `Draining`, `Progress`, `BadBlock` and
  `PageRoundTrip` hold the laws.
- **The kernel.** `MessageQueue` (linked FIFO and linked subscriber lists, with handlers and interrupts
  posting during dispatch), `Subscriptions`, `QueueLaws`, `TaskRing`, and `OsTimer`.
- **The application.** `Rps`, `Control`, `Display`, `Keypad`, and the laws of each over whole runs, in true time:
  `ControlLaws`, `DisplayLaws`, `KeypadLaws`. `Firmware` composes all of them on values under the kernel's loop;
  `Wires`, `EndToEnd` and `Liveness` hold what they do together, from the keypad to the motor and the log. `Wiring` says who subscribes to what and how messages travel through the queue, and
  `KernelLoop` is the loop over the objects: the linked message queue with its subscriber lists, the linked
  task ring, the logger with its driver, controller, display and keypad.

Inputs from outside are parameters or free choices: the clock, how the devices on the bus answer the start, the
address and each byte of a transfer, the date read from
the clock chip, port readings, what an uninitialised heap page holds.

## What turned out not to hold, and exactly when it does

- A power cut inside an update of the control block can lose the log (`CrashSafety.UncleanCutLosesTheLog`:
  the 256th append, cut before its last byte, leaves an empty log). `CrashSafety.TearOutcome` gives, for
  every page and block, the exact byte positions and values for which start-up still finds the old or the
  new window; `TornBlock` and `TornAppend` are its short forms, `TornFirstBlock` the rule on an erased
  device. Crash consistency is proved for all runs in which the tear that a power cut leaves on the device
  is of the harmless kind; transfers that failed and were repeated before may have landed anything.
- On an erased device a power cut between the second and the last byte of the very first control block
  leaves an index beyond the last page, and no message is ever logged on that device again, over any number
  of restarts without a deletion, which this application never requests (`BadBlock.TornFirstBlockKills`,
  `DeadForGood`). Whatever a device holds, a message can be logged on it without a deletion if and only if
  its next free slot is at most page 1023; the first append then leaves a sound block (`BadBlock.HealsIff`).
- A dump of the log ends if and only if its oldest slot is at most page 1023 and its next free slot is from
  1 to 1023, or the two are 1023 and 1024 (`Readback.ReadbackEndsIff`, for every block start-up may find).
  For a sound block that is: unless slot 0 is the next free one.
- A ready logger with a working bus, whatever its block, empties its queue if and only if no deletion is
  requested, its next free slot is at most page 1023, and a dump that is requested ends
  (`Draining.DrainsIff`). What blocks it does so until a reset (`Draining.BlockedForGood`).
  `Draining.DumpOfEmptyLogBlocks` is a way into a dump that never ends: that of an empty log, which
  `control.cpp:56-57` requests whenever a speed of 0 is entered; `BadBlock.DeadLogger` is the logger with an
  index beyond the last page.
- `CreateLogEntry` takes texts of up to 56 characters, but a page keeps 50 bytes: exactly the texts
  shorter than 50 read back whatever was in the slot (`PageRoundTrip.RoundTripIff`).
- `kernel/ostimer.cpp:104` says that freezing stops a timer; while frozen, `isExpired` goes on counting
  (`OsTimer.FrozenExpiredIff`, `OsTimer.FrozenExpires`). A timer goes on telling the time that was not frozen if and only if each call
  is bracketed (Set, Restart and Freeze while running, Thaw while frozen), or is a Thaw of a timer that was
  never frozen, or comes when the counter shows the freeze mark again (`OsTimer.StepTracksIff`, over whole
  histories `OsTimer.TracksIff`); a Set or Restart of a running timer sets everything right again.
  `OsTimer.ThawTwice` and `OsTimer.RestartWhileFrozen` are the two failures.
- The speed conversion is exact if and only if at most 655 edges were counted
  (`Rps.ConversionIsExactIff`).
- `README.md:19` says that of several keys the first one detected is accepted. Over every run the keys
  posted are those detected first, once per accepted press, if and only if no press is accepted at another
  reading than its first one and no reading jumps from an accepted key to another mapped value
  (`Keypad.FirstKeyIff`). `Keypad.SecondKeyAccepted` and `Keypad.BothKeysPosted` are the two failures.

Where the repository's own text and code differ, the model follows the code: `README.md:51` and
`README.md:53` give two logging periods, the code logs every eighth tick of more than 250 ms; the second
test for 230 at `control.cpp:39` cannot be reached.

## Model

| member | source | states |
|---|---|---|
| RingLog.AppendRefines | LogTask.cpp:79-89 | one append on a ring of n slots is "add at the end, keep the newest n - 1", for every n of at least 2 and every window |
| RingLog.AppendAllRefines | LogTask.cpp:65-89 | after any list of appends, reading circularly from the oldest to the next free slot gives the newest n - 1 values in order |
| RingLog.FreeSlotIsOutside | LogTask.cpp:67-71 | whatever lands in the free slot, the window shows the same entries |
| Iic.Driver.IICWrite | kernel/iic.cpp:65-110 | for every way the devices may answer the start, the address and each byte: -1 iff the start is refused, 0 iff everything is answered; the chip takes exactly the bytes before the first unanswered one |
| Iic.Driver.IICRead | kernel/iic.cpp:126-174 | likewise for reading: the answered bytes are the sequential ones from the pointer, the rest of the buffer and the memory stay |
| E2Driver.Stored | E2Driver.cpp:9-15 | the two-byte address and up to 64 data bytes store exactly those bytes at the page start, never wrapping in the chip's write page |
| E2Driver.PagesAfterWrite | E2Driver.cpp:9-15 | such a write overwrites the head of that page and leaves every other page alone |
| E2Driver.ReadsLastWrite | E2Driver.cpp:4-32 | reading as many bytes as were last written to a page yields them, whatever was written to other pages since |
| E2Driver.E2.MemoryWrite | E2Driver.cpp:4-16 | guards give -1 and touch nothing; otherwise 0 iff the bus answers the address and all data bytes, and page `page` starts with exactly the data bytes answered before the first that was not |
| E2Driver.E2.MemoryRead | E2Driver.cpp:19-32 | guards give -1; otherwise 0 iff the bus answers both transfers, and the output starts with exactly the bytes that came across; the memory never changes |
| LogModel.AdvancedIsAdvance | LogTask.cpp:79-89 | the 16-bit field updates are one ring step, keep both indices below 1023, and never let them meet |
| LogModel.SlotWriteAppends | LogTask.cpp:65-94 | a completed slot write with its index update appends the record to the log of at most 1022 entries |
| LogModel.TornSlotIsOutside | LogTask.cpp:67-71 | arbitrary bytes left by a failed slot write do not change the log |
| LogModel.IndicesMeetIffEmpty | LogTask.cpp:79-89 | the two indices are equal exactly when the log is empty |
| LogModel.BlockRoundTrip | LogTask.h:35-41 | a control block written over any page reads back as itself |
| LogModel.BlockBytes | LogTask.h:35-41 | magic word, entry count, oldest and next free slot lie in this order, each low byte first |
| LogModel.GoodBus | LogTask.cpp:26-127 | a bus that answers every byte makes no step fail, unless the page is beyond the last |
| LogModel.TakenIff | LogTask.cpp:137-168 | a text of at most 56 bytes, with fewer than three records waiting and a clock that answers, becomes the last record of the queue, date, text and NUL; otherwise nothing changes |
| LogTask.LogTask.TaskLoop | LogTask.cpp:19-134 | for every answer of the bus, one call on the object with its linked list and driver is one step of the state machine, whose outcome the answers alone decide |
| LogTask.LogTask.WriteHead | LogTask.cpp:65-95 | writing the head: on failure one failure is counted and only the bytes that landed in the free slot differ, on success the head is unlinked and freed and the block advanced |
| LogTask.LogTask.LoadControlBlock | LogTask.cpp:26-43 | start-up takes the stored block, or a fresh one without the magic word; a failed read counts one failure and leaves the RAM block half overwritten |
| LogTask.LogTask.CreateLogEntry | LogTask.cpp:137-168 | exactly the accepted messages are linked at the end of the list, 0 or -1 says which, the list stays acyclic and owns its nodes |
| LogTask.LogTask.EventHandler | LogTask.cpp:184-202 | the three messages set the two flags or queue a record, others do nothing |
| CrashSafety.TornBlock | LogTask.cpp:96-102 | an update of the block cut after k bytes recovers the old or new window if and only if the cut is clean |
| CrashSafety.TornAppend | LogTask.cpp:79-102 | for an append only cuts inside the index words can hurt, when the oldest entry is dropped or the free slot enters another 256-slot block |
| CrashSafety.UncleanCutLosesTheLog | LogTask.cpp:79-102 | on any device with 255 entries: start-up, one message, and a power cut 7 bytes into the block that counts it; the next start-up is ready with an empty log |
| CrashSafety.TearOutcome | LogTask.cpp:26-43 | whatever the page held, after any part of a block landed start-up finds the old or the new window if and only if the tear is clean |
| CrashSafety.TornFirstBlock | LogTask.cpp:28-38 | on an erased device a cut of the first block leaves sound indices if and only if at most one byte or all eight landed; otherwise the next free slot is beyond 0xFF00 |
| CrashSafety.StepSafe | LogTask.cpp:19-134 | every event keeps the invariant and is the specification step of its kind: a failed task step changes nothing but an asked-for deletion, a completed one appends, clears or saves, a message is queued exactly when accepted, a power cut with a clean tear leaves the durable or the live log |
| CrashSafety.RunRefines | LogTask.cpp:19-134 | so any run is a run of that specification, with torn blocks that are repaired before the power fails and with any number of power cuts whose tear is clean |
| CrashSafety.CrashConsistency | LogTask.cpp:26-107 | after any such run from power-up a power cut and restart finds the live log, also when the logger has stopped; inside a block update, begun or given up, it finds the old or the new window iff the tear is clean, and then the live log or the one before the one append or deletion in flight; with no update under way the RAM block is what start-up recovers |
| CrashSafety.WriteAimsOutside | LogTask.cpp:65-71 | the slot being written is below 1023 and outside the window start-up would find |
| ExactlyOnce.Step | LogTask.cpp:65-94 | each event moves the head of the queue to the end of the log, or a new record to the end of the queue, or neither |
| ExactlyOnce.ExactlyOnceInOrder | LogTask.cpp:65-168 | without reset and deletion, records queued and accepted are exactly those committed followed by those still queued, in order, and the log is the newest 1022 of old log and committed records; the entry count is capped at 1023 |
| ExactlyOnce.ExactlyOnceFromPowerUp | LogTask.cpp:26-168 | the same from power-up, whatever log the device holds and however often start-up fails: until start-up succeeds everything accepted is queued and the device untouched, afterwards the books balance against the device's log |
| Restart.RestartFindsCommitted | LogTask.cpp:26-168 | from power-up, over any run without deletion, a power cut with a clean tear and a restart find the newest part of the device's first log and the committed records in order; only the last may be missing, only while its update is not done; the device is usable again |
| Restart.BootsAdd | LogTask.cpp:26-168 | over any number of boots, each ended by such a power cut, the device holds the newest part of its first log and the survivors of every boot in order: of each boot the committed records, at most the last one missing |
| BadBlock.DeadForGood | LogTask.cpp:65-71 | a device whose block names no page to write to is never written again, over any run without deletion and with any power cuts |
| BadBlock.HealsIff | LogTask.cpp:65-103 | whatever a device holds, a message can be logged on it without deletion iff its next free slot is at most page 1023; an unsound block can become sound iff the same |
| BadBlock.TornFirstBlockKills | LogTask.cpp:96-102 | an erased device, start-up, a message and a power cut after 2 to 7 bytes of the first block: it is dead for good |
| BadBlock.DeadLogger | E2Driver.cpp:6-7 | on it a ready logger with a good bus and no request never empties its queue, and no dump ends |
| Draining.Drains | LogTask.cpp:45-107 | with a working bus three task steps per queued record empty the queue into the log |
| Progress.CommitsInTime | LogTask.cpp:45-107 | with a working bus and neither request, whatever messages arrive, the n oldest queued records are committed after at most 3n task steps |
| Draining.BlockedForGood | LogTask.cpp:47-71 | with a deletion requested outside a page write, a dump requested or running that never ends, a next free slot beyond the last page, or once stopped, no page is written again and the queue only grows, until a reset |
| Draining.DeletionSticks | LogTask.cpp:47-52 | a deletion request, whenever it arrives, is never taken back: until a reset at most one more page is written, the one whose write was under way |
| Draining.DeletionClears | LogTask.cpp:47-51 | two good task steps after a ready logger finds the request, RAM block and device hold an empty log, also for a restart, whatever was there before |
| Draining.DrainsIff | LogTask.cpp:45-127 | a ready logger with a working bus, whatever its block, empties its queue iff no deletion is requested, its next free slot is at most page 1023, and, when a dump is requested, that slot is not 0 and the oldest at most page 1023 |
| Draining.DumpOfEmptyLogBlocks | LogTask.cpp:53-127 | on a device without a log, start-up, a message and a dump request: the message is never logged, whatever comes before a reset |
| ExactlyOnce.FailureBound | LogTask.cpp:21-22 | in every run at most six failures are counted and at most three records queued, and six stop the logger at its next step |
| ExactlyOnce.StopIsFinal | LogTask.cpp:129-130 | once stopped, device, RAM block and printed pages never change and the queue stays bounded, until a reset |
| Failures.CountsFailures | LogTask.cpp:26-127 | over every run the failure counter is the number of failed or refused transfers since the last reset, completed start-up, page write or block write, told from the events; a completed dump read takes none away |
| Failures.StopsIff | LogTask.cpp:21-22 | in every run from power-up the logger has stopped iff since the last reset that tally reached six and a task step followed |
| Failures.RetryIff | LogTask.cpp:65-95 | after k failures in a row of a page write a completed transfer still commits the record if k is at most five; if k is six the logger stops with queue and block as they were |
| Readback.ReadbackComplete | LogTask.cpp:53-127 | with messages arriving and few enough read failures, a dump prints the log, each entry once, oldest first, and ends in the ready state |
| Readback.ReadbackNeverEnds | LogTask.cpp:121-125 | with next free slot 0, or an index beyond the last page, the cursor never matches: no run without reset leaves the scan except into the stopped state |
| Readback.ReadbackEndsIff | LogTask.cpp:109-127 | a dump that was started, whatever the block, can come back to ready iff the scan from the oldest slot can meet the next free one: oldest at most page 1023 and next free from 1 to 1023, or 1023 and 1024; for a sound block, iff the next free slot is not 0 |
| PageRoundTrip.ShortTextSurvives | LogTask.cpp:67-67 | a text below 50 characters and the date read back unchanged whatever slot and heap held |
| PageRoundTrip.RoundTripIff | LogTask.cpp:142-142 | of the accepted texts exactly those below 50 characters do |
| Subscriptions.RunRepresents | kernel/mq.cpp:126-274 | over any run of Subscribe and Unsubscribe each list holds exactly the subscriptions made and not removed, each once, newest first |
| Subscriptions.RemoveKeepsOthers | kernel/mq.cpp:215-228 | unlinking one subscriber keeps all others in order |
| Subscriptions.DropAllAfterRun | kernel/mq.cpp:291-296 | unsubscribing from all ids removes the receiver from every list and keeps all others in order |
| MessageQueue.MQ.Post | kernel/mq.cpp:316-341 | a valid id is appended to the acyclic chain that First and Last delimit; -1 and ids from 26 on are refused without effect |
| MessageQueue.MQ.Subscribe | kernel/mq.cpp:126-188 | prepends unless the id is bad, the handler null or its address listed; other lists and all nodes stay linked as they were |
| MessageQueue.MQ.Unsubscribe | kernel/mq.cpp:204-274 | unlinks the first node with that address and says whether there was one |
| MessageQueue.MQ.UnsubscribeAllIDs | kernel/mq.cpp:291-296 | removes the address from all 26 lists |
| MessageQueue.MQ.Dispatch | kernel/mq.cpp:375-379 | following the links while handlers post and subscribe calls exactly the subscribers listed at the start |
| MessageQueue.MQ.Loop | kernel/mq.cpp:356-392 | the linked queue processes n messages as the specification does, for any behaviour of handlers and interrupts |
| QueueLaws.RoundsConserve | kernel/mq.cpp:316-392 | posts arriving at any moment, the deliveries are a prefix of the posts and the queue is the rest |
| QueueLaws.CallsConserve | kernel/mq.cpp:375-379 | the same holds after any number of handler calls of a dispatch, with the message in hand |
| QueueLaws.RoundLetsIn | kernel/mq.cpp:316-392 | a round accepts exactly the valid posts of interrupts and handlers made in it, in order, and puts the handlers' subscriptions on the lists |
| QueueLaws.RoundsLetIn | kernel/mq.cpp:316-392 | over any number of rounds the accepted posts are exactly the valid ones made, in the order they were made |
| QueueLaws.RoundTrace | kernel/mq.cpp:374-389 | a dispatch calls each subscriber present at its start once, newest first, then frees an owned context once |
| QueueLaws.RoundsTellStories | kernel/mq.cpp:356-392 | the whole trace is one such story per delivered message, in order, each with the subscribers listed when its round began |
| TaskRing.TaskManager.RegisterTaskHandler | kernel/taskring.cpp:144-185 | a non-null task is prepended and the cursor's place in the pass is kept |
| TaskRing.TaskManager.Loop | kernel/taskring.cpp:114-126 | the linked ring steps as the specification does, even when tasks register tasks |
| TaskRing.WholePass | kernel/taskring.cpp:114-126 | a pass calls the entries there were at its start, newest to oldest; what is registered meanwhile waits for the next pass |
| TaskRing.StepRegisters | kernel/taskring.cpp:114-185 | what the running task registers is in front of the ring afterwards, newest first, and the step runs the next entry of the pass |
| TaskRing.RunsArePasses | kernel/taskring.cpp:114-126 | every run is complete passes and one partial pass |
| TaskRing.AnyWindowIsFair | kernel/taskring.cpp:114-126 | with k entries and no registration any k consecutive steps call each entry exactly once |
| OsTimer.OSTimer.Thaw | kernel/ostimer.cpp:131-134 | shifts the start mark by the time since Freeze modulo 2^32, if the timer was ever frozen |
| OsTimer.StepTracksIff | kernel/ostimer.cpp:59-134 | for every timer, watch, call and time the start mark goes on being the last start plus all frozen time, modulo 2^32, iff the call is harmless: bracketed, a Thaw of a never frozen timer, or made when the counter shows the freeze mark |
| OsTimer.TracksIff | kernel/ostimer.cpp:59-134 | it is so all through a history iff every call of it is harmless |
| OsTimer.TracksAlways | kernel/ostimer.cpp:59-134 | in particular over any bracketed history |
| OsTimer.ExpiredIff | kernel/ostimer.cpp:96-99 | if all calls since the last Set or Restart of the running timer were harmless, a running timer has expired iff the time not frozen since the last start exceeds the timeout, across wraps, below 2^32 |
| OsTimer.FrozenExpiredIff | kernel/ostimer.cpp:113-117 | for a frozen timer, likewise, the answer is right iff the timeout does not fall into the freeze |
| OsTimer.FrozenExpires | kernel/ostimer.cpp:96-117 | a timer of 100 frozen at 50 has expired at 160 |
| OsTimer.ThawTwice | kernel/ostimer.cpp:131-134 | a second Thaw is not harmless: it shifts the mark again and the timer is late |
| OsTimer.RestartWhileFrozen | kernel/ostimer.cpp:78-134 | nor is a Restart inside a freeze: the timer expires at once |
| Rps.RPS.OnPinChange | rps.cpp:25-31 | the method's new state, as the step function of the laws |
| Rps.RPS.OnTimerOverflow | rps.cpp:34-38 | likewise for the gate |
| Rps.GateCounts | rps.cpp:25-38 | the latched count is the number of rising edges since the gate opened, modulo 2^16 |
| Rps.EachGateCounts | rps.cpp:25-38 | over every run of the two interrupts from power-up the latched count is the number of rising edges between the last two gates, modulo 2^16 |
| Rps.ConversionIsExactIff | rps.cpp:19-22 | the 16-bit conversion is exact iff at most 655 edges were counted, and never exceeds 840 |
| ControlLaws.RunFollows | control.cpp:8-60 | over every timely run, told from times, counts and entered speeds alone: each task call more than 250 ms after the last tick is a tick and posts the conversion of its own count once, other calls post nothing; every eighth tick under demand and every speed other than 0 posts a text of the speed entered last and the one measured last; 0 posts a dump request; demand, measured speed and duty are those of the last events |
| ControlLaws.DutyIsTable | control.cpp:33-52 | the duty of an admissible speed is that of the table of corrections, out of 340 |
| ControlLaws.TextShows | control.cpp:68-68 | such a text reads as the two labels, the speed and count * 100 / 78 as three digits each |
| Control.LogTextIs36 | control.cpp:67-68 | two numbers below 1000 give a NUL-free text of 36 characters from which both can be read back |
| Control.CadenceIsConserved | control.cpp:8-26 | for any interleaving of ticks and entered speeds, eight times the periodic logs plus the counter is the number of ticks under demand, and the counter stays below eight |
| Control.TicksArePaced | control.cpp:10-25 | after a tick the task does nothing for 250 ms |
| Control.DutyFits | control.cpp:33-54 | for an admissible speed the duty is within 0..255 before the cast, and 0 only for a stop |
| Control.TextInPosts | control.cpp:62-70 | the shared buffer changes only together with a log message, to the text of the current speeds |
| Control.Control.TaskLoop | control.cpp:8-26 | the method's new state and posts, as the step function of the laws |
| Control.Control.EventHandler | control.cpp:28-60 | likewise for an entered speed |
| Display.TypingIsPushing | display.cpp:70-119 | each key consumed before the next arrives, with any other messages before and after its consumption, the buffer and cursor are a stack of at most three digits and nothing is posted |
| Display.EntryIsTheStack | display.cpp:45-127 | for every key sequence of that kind, with other messages at any point from the first digit to after enter, the whole entry posts the stack padded with zeros, once, if admissible, and nothing otherwise |
| Display.AnythingPostedIsAdmissible | display.cpp:121-127 | under any interleaving the cursor stays within 9..12 while editing and every posted speed is 0 or in 50..340 |
| DisplayLaws.ErrorPasses | display.cpp:130-150 | in true milliseconds, across wraps of the counter: after a refusal the error stays for 2000 ms whatever arrives and posts nothing, the first task step later refreshes, the next one is idle |
| DisplayLaws.EnterRefused | display.cpp:102-138 | enter on a stack that makes no valid speed is refused by the second task step after it |
| DisplayLaws.EntryAfterRefusal | display.cpp:121-150 | after a refusal, once the error has passed, a new entry posts its own verdict |
| DisplayLaws.StartsIff | display.cpp:18-28 | the display has left its start screen iff a task step came after the completion message; it never goes back |
| DisplayLaws.StartsUp | display.cpp:25-43 | after that message two task steps, with other messages anywhere, make it idle |
| DisplayLaws.FollowsActual | display.cpp:53-68 | an idle display adopts the measured speed that arrived last, shows it iff it is new, and is idle again one step later |
| Display.Display.TaskLoop | display.cpp:12-156 | the method's new state and posts, as the step function of the laws |
| Display.Display.TakeKey | display.cpp:88-117 | backspace, enter or a digit, on the character array in place |
| Keypad.KeypadTask.TaskLoop | KeypadTask.cpp:24-92 | the method's new state and posts, as the step function of the laws |
| Keypad.KeypadTask.Matching | KeypadTask.cpp:59-65 | the loop over the map finds the one key of a reading, or none |
| Keypad.DisplayAlternates | KeypadTask.cpp:32-90 | over every run the display messages alternate between a key and blank, the state is "pressed" iff the last was a key, and there is one key message per displayed key plus one per roll-over |
| Keypad.FirstKeyIff | KeypadTask.cpp:34-84 | over every run the keys posted are those detected first, once per accepted press, iff no press is accepted at another reading than its first and no roll-over occurs; there is one key message per accepted press and roll-over |
| Keypad.SecondKeyAccepted | KeypadTask.cpp:55-65 | key 1 detected, key 2 read when the debounce is over: key 2 is accepted |
| Keypad.BothKeysPosted | KeypadTask.cpp:72-84 | key 1 accepted, then a roll-over to key 2: both are posted |
| Keypad.OnePressOneKey | KeypadTask.cpp:34-84 | a press at one mapped value until release posts its key exactly once if it outlasts the debounce at some poll, and nothing otherwise |
| KeypadLaws.KeypadLayout | KeypadTask.h:20-37 | the key in each of the four rows and three columns is read as its number: 1 to 9 row by row, then backspace, 0, enter |
| KeypadLaws.OnlyKeys | KeypadTask.h:20-37 | a reading that is not one row and one column of the keypad is no key |
| KeypadLaws.PressOf | KeypadTask.cpp:34-84 | a key held at one reading and released posts its number to both receivers once, then a blank, iff a poll came more than 20 ms of true time after the one that detected it, and otherwise nothing |
| Firmware.DeliverTakesOne | kernel/mq.cpp:356-392 | handling a message takes exactly one from the queue's weight, an entered speed weighing two |
| Firmware.MessagePhaseDrains | kernel/kernel.cpp:15-18 | after the two messages of an iteration the queue is empty and every formatted text has been handed over |
| Firmware.QueueBound | kernel/kernel.cpp:15-19 | for all runs from power-up the weight is at most two at the start of an iteration, tasks run with an empty queue, and the logger finds in the shared buffer exactly the texts formatted there, in order |
| Firmware.LoggingIsFaithful | control.cpp:62-70 | end to end, for any run from power-up on any usable device: the logger is offered exactly the formatted texts in order, accepts some of them, their records were appended to the device's log or are still queued, once each and in order, and each reads back from its page as the very text it was accepted from |
| Firmware.PowerCutIsSafe | LogTask.cpp:26-107 | after any run of the firmware from power-up on any usable device a power cut with a clean tear and a restart find the device's first log and the committed records, of which at most the last, still being saved, is missing |
| Firmware.FiveIterations | App.ino:11-29 | after any run from power-up the next five iterations run controller, logger and display once each and the keypad twice |
| Wires.RunMatches | App.ino:5-29 | over every run from a well-formed state each part is where its own share of polls, turns and messages takes it alone, and what start-up, keypad, display and controller post under an id is delivered under this id, in order, or still queued |
| Wires.LogEventsAreTraced | control.cpp:62-70 | the logger's share, with the text in the shared buffer at that moment and the outcome of each transfer, is what the laws of the logger are about |
| Liveness.LoggerTurns | App.ino:11-29 | in any 5k iterations the logger has k turns |
| Liveness.AcceptedIsCommitted | LogTask.cpp:19-107 | after any run from power-up on a usable device that left the logger at work, 45 iterations with a working bus and no dump request commit every text accepted so far |
| Liveness.WorkingBusCommits | LogTask.cpp:19-107 | so always, if the bus works throughout and no dump is requested |
| EndToEnd.KeysAndSpeedsArrive | display.cpp:159-175 | over every run from power-up the keys that reach the display are those the keypad posted, the speeds that reach the controller those the display posted, in order, but for those still queued |
| EndToEnd.TypedSpeedIsDemanded | display.cpp:70-127 | from keypad to motor, after any run from power-up that ends in an entry with nothing left in the queue: the entry's keys are the last ones the keypad posted, and the controller demands the speed they make, or what it demanded before if that is not valid |
| EndToEnd.LoggedTextsAreMeasured | control.cpp:8-70 | from tachometer and keypad to the log, over every run from power-up with timely controller calls: the texts offered to the logger, and the one on its way, are those that entered speeds and tick counts call for |
| EndToEnd.DumpsAreZeros | control.cpp:56-57 | over every run from power-up a dump is asked for once for each 0 that was entered, but for requests still queued, and a deletion never |
| EndToEnd.NoStartWithoutClock | App.ino:25-28 | if the clock was not set the display never leaves its start screen |
| EndToEnd.StartsWithinThree | App.ino:11-29 | if it was, three iterations after power-up it has left it for good |
| Wiring.OneMoreWired | App.ino:5-9 | none of the constructors' subscriptions is refused: each finds its id without a subscriber and gives it one |
| Wiring.BootTable | App.ino:5-9 | after them every message id that is used has exactly its one receiver, and no other id has any |
| Wiring.WireRoundTrip | control.cpp:62-70 | what the application sends as a context is what the receiver makes of it |
| Wiring.PostingAppends | kernel/mq.cpp:316-341 | what a handler or task posts joins the end of the queue and leaves the subscriptions alone |
| KernelLoop.Kernel.constructor | App.ino:5-9 | the global objects, the linked queue among them, as their constructors leave them but for the subscriptions |
| KernelLoop.Kernel.StartUp | App.ino:11-29 | the subscriptions in the linked lists and the first posts and tasks give the boot state, with the task ring in registration order |
| KernelLoop.Kernel.Dispatch | kernel/mq.cpp:375-379 | walking the linked list of a message calls its one receiver, whose object changes as in the composed model and whose posts go through the linked queue |
| KernelLoop.Kernel.DeliverFirst | kernel/mq.cpp:356-392 | one round on the objects is one delivery of the composed model and one round of the queue's specification, with the handler's own posts |
| KernelLoop.Kernel.Loop | kernel/kernel.cpp:15-19 | one iteration on the objects, with linked message queue, subscriber lists and task ring, is one iteration of the composed model |

## Left out

- CrashSafety.CrashConsistency: for power cuts before the last one of a run, it assumes that the tear they leave is clean; interrupted slot writes may leave anything. What an unclean tear leads to is shown for an append that loses the log and for the first block of an erased device.
- KernelLoop.Kernel.Loop: no interrupt routine of this application posts a message, so none does here; posts from interrupts are in MessageQueue and QueueLaws.
- KernelLoop.Kernel.StartUp: makes the constructors' subscriptions in one place, in the order of the object definitions.
- Display.EntryIsTheStack: an entry whose first key arrives before start-up is complete or while an input error is shown, and then waits for an unbounded time, is not covered; one begun after the error is, by DisplayLaws.EntryAfterRefusal.
- ControlLaws.RunFollows: assumes that no tick comes 2^32 ms or more after the one before, which the 32-bit counter cannot tell from an earlier one.
- MessageQueue.MQ.Dispatch: handlers that unsubscribe during a dispatch are not modelled, since the walk would follow a freed node.
- MessageQueue.MQ.Post: ids below -1, which the source would use as an index, are not modelled.
- MessageQueue.MQ.UnsubscribeAllIDs: has no result here; the source declares one and never returns it.
- Display.Display.TakeKey: number parsing is modelled for digits only; the characters right after the three-byte array, which the parser may also read, and the terminator that formatting into it writes are not.
- Control.Control.EventHandler: the duty for speeds that the display never sends is modelled but no law is about it.
- Bus hardware: busy waits, register writes, and other devices on the bus; keypad readings, clock readings and the start-up of the clock chip are inputs.
- The EEPROM's write cycle time: a chip that is still busy shows as a failed transfer.
- LCD, segment display, serial text layout and PWM registers: output without observable state; the pages handed to the serial port and the duty value are kept.
- BCD conversion and the calendar table of the clock driver: small finite tables.
- Memory exhaustion, static initialisation order and uninitialised members: objects start zeroed and allocation succeeds.
- `DeregisterTaskHandler`, destructors, and the macro timers: no behaviour of their own.
- Torn 16-bit reads between interrupts and tasks: interrupt routines and task reads are atomic steps.
