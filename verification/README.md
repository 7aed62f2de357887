# Verified model of the GP2 board-support package and ReCOP assembler

The project models the C layer that runs on the Nios II processor of the GP2 system, and the
Python script that assembles programs for the ReCOP processor beside it, and proves what they
promise. `dafny verify dfyconfig.toml` checks all of it.

**The JTAG UART driver** (`Ring`, `UartMachine`, `UartInvariant`, `UartTheorems`, `UartAlone`,
`UartPresence`, `UartBlocking`, `UartProgress`, `UartDriver`). Two 2048-byte rings are shared
between callers of `read` and `write` and an interrupt routine, with the interrupt-enable bits as
wake-up flags. `UartMachine` is a step system: a step is one access to a device register or to a
shared index, a copied byte is a step of its own, the host acts at any moment (also inside the
interrupt routine), and interrupts and timer interrupts fall between any two steps of the callers.
`UartInvariant` is one invariant over it; `UartTheorems` draws from it conservation in both
directions, freedom from lost wake-ups and from deadlock inside the driver, and a bound on the
interrupt routine; `UartPresence` says what host presence means in terms of what happened at the
connection; `UartBlocking` says exactly when a blocking write takes all of its data, and
`UartProgress` that all that was accepted gets through when the host goes on taking it.
`UartDriver` is the C code as a class over arrays and indices; a ghost copy of the machine takes
one step for each access the code makes, so that all of the theorems hold of every execution of
the code, and `Write`, `Read`, `Ioctl` and `Close` get contracts of their own.

**Alarms** (`Ticks`, `AlarmClock`). `Ticks` relates a 32-bit tick counter with a roll-over flag to
an unbounded timer. `AlarmClock` has the circular doubly linked list on the heap and the walk that
serves alarms while their callbacks take them off it and start others. A log of all calls with
their ticks joins the two: on a clock whose alarms are on schedule it has every alarm called when
an unbounded timer would have called it.

**File descriptors** (`FdTable`, `FdTheorems`, `FdResults`, `FdPool`). The table as a value,
theorems over all runs of system calls, what each call returns and leaves bit for bit, and the C
code over an array, proved to do what the value says.

**Smaller cores.** The two integer printers and format interpreters (`Numerals`, `Printers`,
`PrintfFormats`, `PrintfTheorems`), time of day (`TimeOfDay`), interrupt registration and dispatch
(`Interrupts`), the two bump allocators (`Heap`), and the assembler (`Assembler`,
`AssemblerForms`). The printed characters and the encoded fields are described without the
functions that produce them. `Words` is shared by all.

## Where the code and its comments part

The model follows the code. The lemmas named give the exact condition and, where it takes more
than reading the condition to see the difference, an input or a run that shows it.

- `alt_fd_lock` scans below `alt_max_fd` (`alt_fd_lock.c:61`), so the descriptor at the mark is
  overlooked and a lock can be granted on a shared device, against the comment at lines 43-45:
  `GrantIsExactUnlessTheTopShares`, `ALockCanBeShared`.
- Closing descriptor 0, 1 or 2 does not release a lock, against `alt_fd_lock.c:47`:
  `CloseReleasesTheLockExactlyWhen`, `ACloseCanKeepTheLock`.
- A failed open clears flags that `fcntl` set on a free descriptor: `RollbackIsExactWhen`,
  `AFailedOpenCanChangeFlags`.
- `alt_alarm_start` with nticks = 2^32-1 makes the deadline equal to the counter and fires on the
  next tick (`alt_alarm_start.c:82`): `HonouredExactlyWhen`, `LargestIsEarly`.
- `settimeofday` multiplies in 32 bits (`alt_settod.c:84`) where `gettimeofday` widens to 64, so
  an immediate reading need not return the value set: `SetThenGetExactlyWhen`,
  `SetThenGetCanDiffer`.
- A blocking `write` may come back short as soon as `host_inactive` is non-zero, before the
  timeout (`altera_avalon_jtag_uart_write.c:187`): `TakesAllExactlyWhen`, `ShortWhileConnected`.
- `mcount_allocate` never looks whether its slab could be had or is large enough:
  `AllocateIsBackedExactlyWhen`, `FailedSlabIsUsed`.
- `alt_iic_isr_register` fails with -EINVAL where its comment says -1, for any number from 32 on:
  `RegisterFailsExactlyWhen`.
- `gettimeofday` adds whole seconds and a fraction computed from a truncated tick length, so at a
  tick rate below 10^6 that does not divide it the clock goes back now and then:
  `NeverGoesBackExactlyWhen`, `UnevenRateGoesBack`.
- A label of the assembler counts instructions, not words: `LabelIsAddressExactlyWhen`,
  `ALabelCanMissItsWord`. A JMP to a label reads a name that was never assigned and stops the
  assembly: `OneJumpToALabelStopsAll`.

## Model

| member | source | states |
|---|---|---|
| Ring.FreeRunIsSafe | GP2/Software/gp2_bsp/drivers/src/altera_avalon_jtag_uart_write.c:106-117 | for every pair of index snapshots the run `write` may fill stays inside the array, touches no live slot, and is empty exactly when the ring holds 2047 bytes |
| Ring.DataRunIsSafe | GP2/Software/gp2_bsp/drivers/src/altera_avalon_jtag_uart_read.c:122-131 | for every pair of index snapshots the run `read` may copy stays inside the array, holds live bytes only, and is empty exactly when the ring is empty |
| Ring.StoreOutside | GP2/Software/gp2_bsp/drivers/src/altera_avalon_jtag_uart_write.c:122 | a store outside the live slots does not change what the ring holds |
| Ring.Publish | GP2/Software/gp2_bsp/drivers/src/altera_avalon_jtag_uart_write.c:126 | advancing `tx_in` over n filled slots appends exactly those n bytes, across the wrap too |
| Ring.Consume | GP2/Software/gp2_bsp/drivers/src/altera_avalon_jtag_uart_read.c:140 | advancing `rx_out` over n live slots removes exactly the first n bytes, across the wrap too |
| Ring.Append | GP2/Software/gp2_bsp/drivers/src/altera_avalon_jtag_uart_init.c:137-150 | the interrupt routine's store and increment append one byte |
| Ring.FullTest | GP2/Software/gp2_bsp/drivers/src/altera_avalon_jtag_uart_init.c:137-139 | `next == rx_out` says exactly that 2047 bytes are held |
| UartInvariant.HostSendsKeeps | GP2/Software/gp2_bsp/drivers/inc/altera_avalon_jtag_uart_regs.h:44-49 | a byte arriving in the device at any moment, the middle of the interrupt routine included, keeps the invariant |
| UartInvariant.HostTakesKeeps | GP2/Software/gp2_bsp/drivers/inc/altera_avalon_jtag_uart_regs.h:60-71 | a byte leaving the device at any moment keeps the invariant |
| UartInvariant.IsrKeeps | GP2/Software/gp2_bsp/drivers/src/altera_avalon_jtag_uart_init.c:117-196 | each register access of the interrupt routine keeps the invariant: conservation, the slots both callers are copying, the device room counted on, and the enable bits |
| UartInvariant.RxStoreKeeps | GP2/Software/gp2_bsp/drivers/src/altera_avalon_jtag_uart_init.c:144-150 | the routine may store a byte while the reader is half way through a copy, without touching a slot of that copy |
| UartInvariant.TxSendKeeps | GP2/Software/gp2_bsp/drivers/src/altera_avalon_jtag_uart_init.c:174-184 | the routine may send a byte while the writer works from an older `tx_out`, and the writer's room only grows |
| UartInvariant.CopyInKeeps | GP2/Software/gp2_bsp/drivers/src/altera_avalon_jtag_uart_write.c:119-122 | each byte of the copy into the ring goes to a slot that is not live, whatever the routine has done since the snapshot |
| UartInvariant.PublishKeeps | GP2/Software/gp2_bsp/drivers/src/altera_avalon_jtag_uart_write.c:122-126 | publishing makes the copied segment, whole and in order, part of the accepted stream |
| UartInvariant.WriterKeeps | GP2/Software/gp2_bsp/drivers/src/altera_avalon_jtag_uart_write.c:100-191 | every step of a call of write keeps the invariant |
| UartInvariant.ReaderKeeps | GP2/Software/gp2_bsp/drivers/src/altera_avalon_jtag_uart_read.c:115-195 | every step of a call of read keeps the invariant, although it works from a stale `rx_in` |
| UartInvariant.StepKeeps | GP2/Software/gp2_bsp/drivers/inc/altera_avalon_jtag_uart.h:90-118 | every step of every party keeps the invariant |
| UartInvariant.BootHolds | GP2/Software/gp2_bsp/drivers/src/altera_avalon_jtag_uart_init.c:66-100 | start-up, with or without the presence alarm, establishes the invariant |
| UartInvariant.RunKeeps | GP2/Software/gp2_bsp/drivers/src/altera_avalon_jtag_uart_init.c:103-197 | so every interleaving keeps it |
| UartTheorems.ReceiveConserves | GP2/Software/gp2_bsp/drivers/src/altera_avalon_jtag_uart_read.c:115-142 | for every run from start-up, what callers of read were given, then the ring, then the device FIFO, is exactly what the host sent, in order |
| UartTheorems.TransmitConserves | GP2/Software/gp2_bsp/drivers/src/altera_avalon_jtag_uart_write.c:100-139 | for every run from start-up, what the host received, then the device FIFO, then the ring, is exactly what calls of write accepted, in order |
| UartTheorems.CallsMoveWhatTheyCount | GP2/Software/gp2_bsp/drivers/src/altera_avalon_jtag_uart_write.c:122-126 | what a call of write under way has put in is a prefix of its argument, and what a call of read has given out follows on from earlier calls |
| UartTheorems.NoSlotIsSharedWrongly | GP2/Software/gp2_bsp/drivers/src/altera_avalon_jtag_uart_init.c:174-184 | in every reachable state the slots about to be copied are inside the array and free (write) or live (read), and the device is written only while it has room |
| UartTheorems.NoLostWakeUp | GP2/Software/gp2_bsp/drivers/src/altera_avalon_jtag_uart_init.c:156-194 | in every reachable state a non-empty transmit ring has WE set or a writer that still owes its kick, and RE is clear only over a full receive ring or with a reader that still owes its enable |
| UartTheorems.SpinTestsAreExact | GP2/Software/gp2_bsp/drivers/src/altera_avalon_jtag_uart_write.c:183-184 | the busy-wait tests on wrapping indices mean exactly "still full" and "still empty" |
| UartTheorems.WaitsOnlyForTheOutside | GP2/Software/gp2_bsp/drivers/src/altera_avalon_jtag_uart_read.c:172-178 | a state in which no driver step can change anything is one where the host has the next move: no byte is stranded in the rings or in the device, and whoever is blocked counts the host as connected |
| UartTheorems.EachIsrStepCounts | GP2/Software/gp2_bsp/drivers/src/altera_avalon_jtag_uart_init.c:117-196 | every step of the interrupt routine lowers a rank made of free receive room, bytes to transmit and the two enable bits |
| UartTheorems.IsrTerminates | GP2/Software/gp2_bsp/drivers/src/altera_avalon_jtag_uart_init.c:117-196 | the unbounded loop makes at most 40977 steps, even while the host keeps sending and taking |
| UartTheorems.TimeoutStaysInRange | GP2/Software/gp2_bsp/drivers/src/altera_avalon_jtag_uart_ioctl.c:60-68 | over every run the timeout stays in 2..INT_MAX-1, or INT_MAX for good if the presence alarm never started |
| UartPresence.PresenceIsExact | GP2/Software/gp2_bsp/drivers/src/altera_avalon_jtag_uart_init.c:203-225 | over every run, told from the actions alone: the checks made since the last one that had activity before it and after the check preceding it are the counter, saturating at INT_MAX-2, and "connected" means there are fewer of them than `timeout`; INT_MAX-1 and INT_MAX mean always connected, and without the presence alarm no check is made |
| UartPresence.TellsNext | GP2/Software/gp2_bsp/drivers/src/altera_avalon_jtag_uart_init.c:206-224 | the AC bit says whether the next check will find activity, and no step but a check or activity changes that |
| UartAlone.WriteAlone | GP2/Software/gp2_bsp/drivers/src/altera_avalon_jtag_uart_write.c:103-127 | without interference a non-blocking write appends exactly the first min(count, room) bytes, in however many segments |
| UartAlone.ReadAlone | GP2/Software/gp2_bsp/drivers/src/altera_avalon_jtag_uart_read.c:120-142 | without interference a read removes exactly the first min(space, held) bytes, in however many segments |
| UartAlone.CopyInAlone | GP2/Software/gp2_bsp/drivers/src/altera_avalon_jtag_uart_write.c:119-126 | one segment copied and published byte by byte puts exactly that segment in |
| UartAlone.CopyOutAlone | GP2/Software/gp2_bsp/drivers/src/altera_avalon_jtag_uart_read.c:133-140 | one segment copied and released takes exactly that segment out |
| UartBlocking.TakesAllExactlyWhen | GP2/Software/gp2_bsp/drivers/src/altera_avalon_jtag_uart_write.c:100-191 | for every reachable state and every data: whatever the other parties do, a blocking call that comes back has taken all of it, if and only if there was room for all of it at the call or the presence alarm was never started |
| UartBlocking.TakesAll | GP2/Software/gp2_bsp/drivers/src/altera_avalon_jtag_uart_write.c:146-191 | under that condition no step of any party can cut the call short |
| UartBlocking.ComesBackShort | GP2/Software/gp2_bsp/drivers/src/altera_avalon_jtag_uart_write.c:183-188 | otherwise there is a run in which it comes back short with room in the ring, and, the timeout not being near, with the host still connected |
| UartBlocking.ShortWhileConnected | GP2/Software/gp2_bsp/drivers/src/altera_avalon_jtag_uart_write.c:187-188 | such a run from start-up, for 2048 bytes |
| UartBlocking.FinishIsr | GP2/Software/gp2_bsp/drivers/src/altera_avalon_jtag_uart_init.c:117-196 | from any state the interrupt routine, left to itself, comes to its end |
| UartProgress.AllIsReceived | GP2/Software/gp2_bsp/drivers/src/altera_avalon_jtag_uart_init.c:169-195 | from every state that satisfies the invariant, the writer being outside its calls, and on every run in which the device reports room without delay: after at most 4158 rounds, each with one byte taken and 40978 steps of the interrupt routine among any other steps, everything ever accepted has reached the host |
| UartProgress.EachRoundCounts | GP2/Software/gp2_bsp/drivers/src/altera_avalon_jtag_uart_init.c:169-195 | each such round moves at least one byte on |
| UartProgress.SendCounts | GP2/Software/gp2_bsp/drivers/src/altera_avalon_jtag_uart_init.c:174-184 | with bytes in the ring and none in the device the routine sends one in time, whatever the host sends meanwhile |
| UartProgress.ARoundExists | GP2/Software/gp2_bsp/drivers/src/altera_avalon_jtag_uart_init.c:117-196 | such a round can be had from every state |
| UartDriver.JtagUart.constructor | GP2/Software/gp2_bsp/drivers/src/altera_avalon_jtag_uart_init.c:66-100 | start-up is the machine's start state: rings empty, receive interrupts on and transmit interrupts off, a timeout of 10 if the presence alarm could be started and of INT_MAX if not |
| UartDriver.JtagUart.IrqReceive | GP2/Software/gp2_bsp/drivers/src/altera_avalon_jtag_uart_init.c:125-167 | the receive half makes only steps of the machine, leaves both callers where they were, and ends |
| UartDriver.JtagUart.IrqTransmit | GP2/Software/gp2_bsp/drivers/src/altera_avalon_jtag_uart_init.c:169-195 | the transmit half likewise |
| UartDriver.JtagUart.Irq | GP2/Software/gp2_bsp/drivers/src/altera_avalon_jtag_uart_init.c:110-197 | the whole routine ends with host traffic going on, and the rings have only drained (transmit) and filled (receive) |
| UartDriver.JtagUart.Timeout | GP2/Software/gp2_bsp/drivers/src/altera_avalon_jtag_uart_init.c:203-225 | the presence check, which runs only if its alarm was started: AC is clear afterwards, and the counter is 0 if it was set and one more, up to INT_MAX-2, if not |
| UartDriver.JtagUart.Preempt | GP2/Software/gp2_bsp/drivers/inc/altera_avalon_jtag_uart.h:105-112 | any number of interrupts, timer interrupts and host events between two steps of a caller leaves that caller's step valid |
| UartDriver.JtagUart.Fill | GP2/Software/gp2_bsp/drivers/src/altera_avalon_jtag_uart_write.c:102-127 | the copy loop puts a prefix of the data in, and falls short only after taking all the room there was at the start |
| UartDriver.JtagUart.AwaitRoom | GP2/Software/gp2_bsp/drivers/src/altera_avalon_jtag_uart_write.c:183-188 | it waits only while the ring is full and the host counts as connected; after the wait the call goes round again, having found room or let others have a turn, or leaves with the host seen inactive |
| UartDriver.JtagUart.Write | GP2/Software/gp2_bsp/drivers/src/altera_avalon_jtag_uart_write.c:83-215 | whatever interrupts: a returned count is the length of a prefix of the data now in the stream; a short count only for a non-blocking caller or with `host_inactive` non-zero; never less than the room there was; all of it for a blocking caller with room for it or without a presence alarm; errors exactly when nothing went in; and it is still waiting only over a full ring with the host connected |
| UartDriver.JtagUart.Drain | GP2/Software/gp2_bsp/drivers/src/altera_avalon_jtag_uart_read.c:119-142 | the inner loop takes all the space, or at least all that was held at the start |
| UartDriver.JtagUart.AwaitData | GP2/Software/gp2_bsp/drivers/src/altera_avalon_jtag_uart_read.c:173-178 | it waits only while the ring is empty and the host counts as connected; after the wait the call goes round again exactly if there is data |
| UartDriver.JtagUart.Read | GP2/Software/gp2_bsp/drivers/src/altera_avalon_jtag_uart_read.c:100-203 | whatever interrupts: the bytes returned are the next ones of the stream; as many as fit or were held; nothing at all only with no space, for a non-blocking caller, or from an empty ring when the host counted as gone at some point of the call; RE is on again unless the ring is full; and it is still waiting only over an empty ring with the host connected |
| UartDriver.JtagUart.Ioctl | GP2/Software/gp2_bsp/drivers/src/altera_avalon_jtag_uart_ioctl.c:52-84 | which requests succeed, what they leave in the timeout, and that the connected query answers "fewer than `timeout` quiet checks" |
| UartDriver.JtagUart.Close | GP2/Software/gp2_bsp/drivers/src/altera_avalon_jtag_uart_init.c:241-254 | returns 0 only with the transmit ring empty or the host timed out, and -EWOULDBLOCK only to a non-blocking caller |
| Ticks.StartIsExact | GP2/Software/gp2_bsp/HAL/src/alt_alarm_start.c:78-98 | for every request but the largest, the truncated deadline and flag stand for now + nticks + 1 on an unbounded clock |
| Ticks.TickIsExact | GP2/Software/gp2_bsp/HAL/src/alt_tick.c:109-115 | the 32-bit test says "due" exactly at the unbounded deadline, and otherwise the alarm goes on standing for it |
| Ticks.RearmIsExact | GP2/Software/gp2_bsp/HAL/src/alt_tick.c:127-137 | a re-armed alarm stands for the firing tick plus the period |
| Ticks.FiringsAreOnTime | GP2/Software/gp2_bsp/HAL/src/alt_tick.c:96-138 | over any number of ticks and wraps an alarm fires at its deadline and then exactly one returned period after each firing |
| Ticks.OnTimeInFull | GP2/Software/gp2_bsp/HAL/src/alt_tick.c:75-84 | the i-th firing is at the first deadline plus the first i periods |
| Ticks.UnderwayStep | GP2/Software/gp2_bsp/HAL/src/alt_tick.c:115-139 | an alarm that has been on time so far still is after a tick at which it is called exactly if that is its deadline |
| Ticks.AlarmIsIdealTimer | GP2/Software/gp2_bsp/HAL/src/alt_alarm_start.c:64-112 | wrapping counter and flag implement an unbounded timer for every nticks up to 2^32-2 |
| Ticks.HonouredExactlyWhen | GP2/Software/gp2_bsp/HAL/src/alt_alarm_start.c:82-96 | exactly which requests are honoured: all but nticks = 2^32-1, and that one only when the counter reads 2^32-1 |
| Ticks.LargestIsEarly | GP2/Software/gp2_bsp/HAL/src/alt_alarm_start.c:82 | nticks = 2^32-1 fires on the next tick |
| AlarmClock.Insert | GP2/Software/gp2_bsp/HAL/inc/sys/alt_llist.h:90-98 | the entry becomes the first of a well-formed circular list, all others in place |
| AlarmClock.Remove | GP2/Software/gp2_bsp/HAL/inc/sys/alt_llist.h:105-117 | the list closes up around the entry, which is left alone; removing it again changes nothing |
| AlarmClock.ServedOnSchedule | GP2/Software/gp2_bsp/HAL/src/alt_tick.c:109-139 | an alarm on schedule is called exactly on its deadline, has then been called when an unbounded timer would have called it, and unless it left is on schedule for the next one |
| AlarmClock.DueAtDeadline | GP2/Software/gp2_bsp/HAL/src/alt_tick.c:115 | with every alarm on schedule, those found due are those whose deadline this tick is |
| AlarmClock.GoneIsOff | GP2/Software/gp2_bsp/HAL/src/alt_tick.c:121-124 | an alarm that left during the walk is on the list no more |
| AlarmClock.Clock.Start | GP2/Software/gp2_bsp/HAL/src/alt_alarm_start.c:64-112 | errors in the source's order; otherwise the alarm is first on the list with the deadline now + nticks + 1 and no calls yet, and a punctual clock stays punctual |
| AlarmClock.Clock.Stop | GP2/Software/gp2_bsp/HAL/src/alt_tick.c:66-73 | takes out exactly that alarm, or does nothing if it was stopped already |
| AlarmClock.Clock.StartAll | GP2/Software/gp2_bsp/HAL/src/alt_alarm_start.c:64-112 | alarms started one after another come to the front of the list, the last one first, each with its own deadline |
| AlarmClock.Clock.Call | GP2/Software/gp2_bsp/HAL/src/alt_tick.c:117 | the one place a callback is called, and the only one that writes the log of calls; what it starts is on the list afterwards |
| AlarmClock.Clock.Serve | GP2/Software/gp2_bsp/HAL/src/alt_tick.c:109-139 | one alarm's turn: flag cleared, called exactly if due, removed or re-armed for the firing tick plus the period its callback returned |
| AlarmClock.Clock.Walk | GP2/Software/gp2_bsp/HAL/src/alt_tick.c:100-141 | the walk ends, gives every alarm one turn in order although alarms leave under it, and the calls it makes are those of the due alarms in order |
| AlarmClock.Clock.Tick | GP2/Software/gp2_bsp/HAL/src/alt_tick.c:87-148 | the callbacks called in one tick are those of the due alarms, each once, in list order, and the log says at which tick; the list left is the old one without those that returned zero, behind the alarms that callbacks started, which have no turn in this tick; if all were on schedule: those called are exactly those whose unbounded deadline has come, the others keep theirs, a call that returned p sets the next for p ticks later, the log has every alarm called since its start when an unbounded timer would have called it, and all are on schedule again |
| AlarmClock.Clock.CallsAreOnTime | GP2/Software/gp2_bsp/HAL/src/alt_tick.c:75-84 | on a punctual clock, over any run of starts, stops and ticks, the log calls every registered alarm first at the tick asked for and then one returned period after each call, and its next call is at the first one plus all the periods so far |
| AlarmClock.FiredAt | GP2/Software/gp2_bsp/HAL/src/alt_tick.c:100-141 | the calls logged at one tick call each due alarm of a list once and no other |
| FdTheorems.BootHolds | GP2/Software/gp2_bsp/HAL/src/alt_dev.c:118-149 | the initial table satisfies the invariant |
| FdTheorems.RunKeeps | GP2/Software/gp2_bsp/HAL/src/alt_open.c:105-171 | every run of open, close, ioctl, fcntl and redirection keeps it: the mark is -1 or at least 3 and bounds every allocated descriptor above 2, and no device has two lock holders |
| FdTheorems.ShortScanSeesAll | GP2/Software/gp2_bsp/HAL/src/alt_open.c:79-87 | the lock test that stops at the high-water mark finds a lock if and only if the whole table holds one |
| FdTheorems.AtMostOneHolder | GP2/Software/gp2_bsp/HAL/src/alt_fd_lock.c:54-75 | over every run a device has at most one lock holder, and only devices are locked |
| FdTheorems.NoOpenWhileLocked | GP2/Software/gp2_bsp/HAL/src/alt_open.c:64-92 | no open of a locked device succeeds |
| FdTheorems.NoneJoinsLocked | GP2/Software/gp2_bsp/HAL/src/alt_open.c:64-92 | no call of any kind puts another descriptor on a locked device |
| FdTheorems.SharersNeverGrow | GP2/Software/gp2_bsp/HAL/src/alt_fd_lock.c:43-45 | for as long as a device stays locked the descriptors on it never become more |
| FdTheorems.HowALockEnds | GP2/Software/gp2_bsp/HAL/src/alt_fd_unlock.c:52-56 | exactly which calls end a lock: TIOCNXCL on the holder, close of a holder above 2, a successful redirection of a standard descriptor that holds it |
| FdTheorems.FcntlSparesTheLock | GP2/Software/gp2_bsp/HAL/src/alt_fcntl.c:86-92 | fcntl changes no lock, no device mark and no device |
| FdTheorems.GrantIsExactUnlessTheTopShares | GP2/Software/gp2_bsp/HAL/src/alt_fd_lock.c:61-69 | TIOCEXCL is granted exactly when no other descriptor refers to the device, if and only if the only other one is not the one at the high-water mark |
| FdTheorems.ALockCanBeShared | GP2/Software/gp2_bsp/HAL/src/alt_fd_lock.c:61 | a run in which a lock is granted although another descriptor is on the device |
| FdTheorems.CloseReleasesTheLockExactlyWhen | GP2/Software/gp2_bsp/HAL/src/alt_release_fd.c:44-51 | closing a holder releases the lock if and only if it is not descriptor 0, 1 or 2 |
| FdTheorems.ACloseCanKeepTheLock | GP2/Software/gp2_bsp/HAL/src/alt_close.c:88 | a run from start-up in which standard output is closed and its device stays locked |
| FdTheorems.OpenTakesTheLowest | GP2/Software/gp2_bsp/HAL/src/alt_get_fd.c:77-89 | a successful open takes the lowest free descriptor, unlocked and rightly marked, and changes no other |
| FdTheorems.OpenSucceedsExactlyWhen | GP2/Software/gp2_bsp/HAL/src/alt_open.c:118-161 | open succeeds exactly when something is found, a descriptor is free, a device is unlocked, and the device's own open agrees |
| FdTheorems.RollbackIsExactWhen | GP2/Software/gp2_bsp/HAL/src/alt_open.c:161-166 | a failed open leaves every descriptor as it was if and only if it took none or the one it took had clear flags |
| FdTheorems.AFailedOpenCanChangeFlags | GP2/Software/gp2_bsp/HAL/src/alt_open.c:163 | fcntl on the free descriptor 3 and then a failing open: its flags are not what they were |
| FdTheorems.CloseUndoesOpenExactlyWhen | GP2/Software/gp2_bsp/HAL/src/alt_close.c:64-101 | closing what was just opened restores the descriptors if and only if the slot had clear flags, and the high-water mark if and only if the slot was not above it |
| FdTheorems.RedirectMovesOnlyTheTarget | GP2/Software/gp2_bsp/HAL/src/alt_io_redirect.c:58-72 | a redirection changes the standard descriptor, and only if the open succeeded; of the others it at most clears the free slot that open tried |
| FdResults.OpenKeepsTheFlags | GP2/Software/gp2_bsp/HAL/src/alt_open.c:139 | a new descriptor has all of the flags asked for but the two top bits, and F_GETFL gives exactly that number back |
| FdResults.RedirectKeepsTheFlags | GP2/Software/gp2_bsp/HAL/src/alt_io_redirect.c:66-68 | so has a standard descriptor after a redirection, with the mark of a device exactly if it is on one |
| FdResults.OpenErrors | GP2/Software/gp2_bsp/HAL/src/alt_open.c:156-165 | a failing open returns -1, and errno is the first that applies of ENODEV, EMFILE, EACCES and what the device's own open returned |
| FdResults.GetFlagsTells | GP2/Software/gp2_bsp/HAL/src/alt_fcntl.c:85 | F_GETFL returns the flags without the two top bits and changes nothing |
| FdResults.SetFlagsIsExact | GP2/Software/gp2_bsp/HAL/src/alt_fcntl.c:86-92 | F_SETFL takes O_APPEND and O_NONBLOCK from the caller and leaves every other bit and every other descriptor |
| FdResults.FcntlRefuses | GP2/Software/gp2_bsp/HAL/src/alt_fcntl.c:93-100 | EBADFD for a negative descriptor, EINVAL exactly for a command that is neither |
| FdResults.LockIsOneBit | GP2/Software/gp2_bsp/HAL/src/alt_fd_lock.c:54-75 | TIOCEXCL sets the top bit of the one descriptor's flags and nothing else, or returns -EACCES and changes nothing |
| FdResults.UnlockIsOneBit | GP2/Software/gp2_bsp/HAL/src/alt_fd_unlock.c:52-56 | TIOCNXCL clears that bit and nothing else |
| FdResults.OthersGoToTheDriver | GP2/Software/gp2_bsp/HAL/src/alt_ioctl.c:144-167 | any other request, or a lock request on what is no device, returns what the driver returns, -ENOTTY without one, and touches no descriptor |
| FdResults.CloseFrees | GP2/Software/gp2_bsp/HAL/src/alt_close.c:84-100 | close frees a descriptor above 2 whatever the device's close returns, and reports that as errno with -1 |
| FdPool.DescriptorPool.constructor | GP2/Software/gp2_bsp/HAL/src/alt_dev.c:131-149 | the initial table |
| FdPool.DescriptorPool.GetFd | GP2/Software/gp2_bsp/HAL/src/alt_get_fd.c:54-101 | takes the first free descriptor and raises the mark |
| FdPool.DescriptorPool.ReleaseFd | GP2/Software/gp2_bsp/HAL/src/alt_release_fd.c:44-51 | frees a descriptor above 2 |
| FdPool.DescriptorPool.FileLocked | GP2/Software/gp2_bsp/HAL/src/alt_open.c:64-92 | the scan, unsigned comparison and all, finds a lock elsewhere up to the mark if there is one |
| FdPool.DescriptorPool.Open | GP2/Software/gp2_bsp/HAL/src/alt_open.c:105-171 | the table, the result and errno are those of `FdTable.Open`, about which the theorems speak, and the new descriptor has the flags asked for but the two top bits |
| FdPool.DescriptorPool.FdLock | GP2/Software/gp2_bsp/HAL/src/alt_fd_lock.c:54-75 | grants exactly when no other descriptor below the mark is on the device |
| FdPool.DescriptorPool.FdUnlock | GP2/Software/gp2_bsp/HAL/src/alt_fd_unlock.c:52-56 | clears the lock bit alone |
| FdPool.DescriptorPool.Ioctl | GP2/Software/gp2_bsp/HAL/src/alt_ioctl.c:106-168 | routing of the lock requests, result and errno |
| FdPool.DescriptorPool.Close | GP2/Software/gp2_bsp/HAL/src/alt_close.c:64-101 | table, result and errno |
| FdPool.DescriptorPool.Fcntl | GP2/Software/gp2_bsp/HAL/src/alt_fcntl.c:66-101 | table, result and errno |
| FdPool.DescriptorPool.OpenFd | GP2/Software/gp2_bsp/HAL/src/alt_io_redirect.c:58-72 | the descriptor is moved, the borrowed one handed back |
| FdPool.DescriptorPool.IoRedirect | GP2/Software/gp2_bsp/HAL/src/alt_io_redirect.c:85-94 | the three redirections in the source's order |
| Numerals.NumeralReadsBack | GP2/Software/gp2_bsp/HAL/src/alt_log_printf.c:281-296 | the digits of a number in any base from 2 to 16 read back as the number |
| Numerals.NoLeadingZero | GP2/Software/gp2_bsp/HAL/src/alt_log_printf.c:247-255 | a numeral begins with 0 only if the number is 0 |
| Numerals.NumeralWrites | GP2/Software/gp2_bsp/HAL/src/alt_log_printf.c:281-296 | a numeral is made of digits of the base with letters of the case asked for, begins with 0 only if it is 0, and reads back as the number |
| Numerals.DigitCharIs | GP2/Software/gp2_bsp/HAL/src/alt_log_printf.c:285-291 | a digit is the character that far after 0, or after A or a from ten on |
| Numerals.NumeralIsDigits | GP2/Software/gp2_bsp/HAL/src/alt_log_printf.c:281-296 | dividing by falling powers of the base gives the same digits as dividing by the base |
| Printers.FieldReadsBack | GP2/Software/gp2_bsp/HAL/src/alt_log_printf.c:238-296 | every printed field, any base, width and padding, reads back as the signed or unsigned argument |
| Printers.FieldWidth | GP2/Software/gp2_bsp/HAL/src/alt_log_printf.c:257-279 | a field has the width asked for, or what the digits and sign need if that is more |
| Printers.FieldIsPrinted | GP2/Software/gp2_bsp/HAL/src/alt_log_printf.c:257-279 | told from the characters: what stands before the digits is zeros after the sign, or spaces before it, up to the width, and a minus sign exactly for a negative argument |
| Printers.LargestPower | GP2/Software/gp2_bsp/HAL/src/alt_log_printf.c:247-255 | the largest power of the base in the number and its digit count are found, without overflowing 32 bits |
| Printers.PrintDigits | GP2/Software/gp2_bsp/HAL/src/alt_log_printf.c:281-296 | the digit loop ends and prints the numeral |
| Printers.PrintInteger | GP2/Software/gp2_bsp/HAL/src/alt_log_printf.c:206-297 | the characters printed are the field: padding, sign and digits as the format asks, character by character |
| Printers.PrintHex | GP2/Software/gp2_bsp/HAL/src/alt_printf.c:84-113 | the shift-and-mask loops end and print the number in lower-case hexadecimal with as few digits as will do |
| PrintfFormats.AltPrintf | GP2/Software/gp2_bsp/HAL/src/alt_printf.c:50-132 | the format loop prints what the recursive description of alt_printf says |
| PrintfFormats.LogPrintf | GP2/Software/gp2_bsp/HAL/src/alt_log_printf.c:114-341 | the state machine prints what its recursive description says |
| PrintfFormats.LogChar | GP2/Software/gp2_bsp/HAL/src/alt_log_printf.c:132-339 | one character through the state machine |
| PrintfTheorems.PlainHexField | GP2/Software/gp2_bsp/HAL/src/alt_log_printf.c:309-312 | with no width the logger's %x is the bare hexadecimal numeral, which is what alt_printf prints |
| PrintfTheorems.PrintfsAgree | GP2/Software/gp2_bsp/HAL/src/alt_printf.c:50-132 | on every format string both interpreters know, with any arguments, they print the same |
| PrintfTheorems.WidthReadsBack | GP2/Software/gp2_bsp/HAL/src/alt_log_printf.c:176-190 | a width written in decimal is read as that width |
| PrintfTheorems.SpecIsObeyed | GP2/Software/gp2_bsp/HAL/src/alt_log_printf.c:152-317 | every conversion %[0][width][.digits][l]{d,i,u,o,x,X} prints the next argument as it asks for, told from the characters of the output, in the base, case and signedness of its letter; precision and l have no effect, and the scan goes on behind it with the argument after |
| PrintfTheorems.CharIsObeyed | GP2/Software/gp2_bsp/HAL/src/alt_log_printf.c:319-322 | %c prints the low byte of the next argument at the end of its field, with spaces before it |
| PrintfTheorems.StringIsObeyed | GP2/Software/gp2_bsp/HAL/src/alt_log_printf.c:324-334 | %s prints the whole of the next argument at the end of its field, with spaces before it |
| PrintfTheorems.OtherLetterIsSkipped | GP2/Software/gp2_bsp/HAL/src/alt_log_printf.c:202-337 | any other letter ends a conversion, prints nothing and takes no argument |
| PrintfTheorems.TextPrintsItself | GP2/Software/gp2_bsp/HAL/src/alt_log_printf.c:134-150 | text without a percent sign prints itself, in the logger and in alt_printf |
| PrintfTheorems.PercentSigns | GP2/Software/gp2_bsp/HAL/src/alt_log_printf.c:158-162 | two percent signs print one, and one at the end prints nothing, in both |
| PrintfTheorems.AltIsObeyed | GP2/Software/gp2_bsp/HAL/src/alt_printf.c:68-121 | %c, %s and %x of alt_printf print the next argument as a character, a string and an unpadded lower-case hexadecimal number, and the scan goes on behind them |
| PrintfTheorems.AltSkips | GP2/Software/gp2_bsp/HAL/src/alt_printf.c:68-121 | any other letter prints nothing there and takes no argument |
| TimeOfDay.TimeKeeper.Set | GP2/Software/gp2_bsp/HAL/src/alt_settod.c:72-96 | the reset time and zone set, or ENOSYS without a clock |
| TimeOfDay.TimeKeeper.Get | GP2/Software/gp2_bsp/HAL/src/alt_gettod.c:71-124 | the two normalisation loops end, and leave what `Reading` says |
| TimeOfDay.NormalisedKeepsTotal | GP2/Software/gp2_bsp/HAL/src/alt_gettod.c:95-112 | borrowing and carrying keep the total and leave 0 <= usec < 10^6, as long as nothing is to be borrowed or there are seconds enough to borrow |
| TimeOfDay.NormalisedBelowZero | GP2/Software/gp2_bsp/HAL/src/alt_gettod.c:95-106 | where there are not, the time told is zero |
| TimeOfDay.TicksInFull | GP2/Software/gp2_bsp/HAL/src/alt_gettod.c:91-93 | when the rate divides 10^6, whole seconds and fraction add up to ticks times tick length |
| TimeOfDay.ReadingIsExact | GP2/Software/gp2_bsp/HAL/src/alt_gettod.c:89-112 | the time told is the reset time plus ticks times tick length, normalised |
| TimeOfDay.ReadingIsMonotone | GP2/Software/gp2_bsp/HAL/src/alt_gettod.c:89-112 | so it never goes back before the counter wraps |
| TimeOfDay.ReadingAddsElapsed | GP2/Software/gp2_bsp/HAL/src/alt_gettod.c:91-112 | at any tick rate the time told is the reset time plus whole seconds plus fraction, normalised |
| TimeOfDay.ExactForAllTicksExactlyWhen | GP2/Software/gp2_bsp/HAL/src/alt_gettod.c:91-93 | that is ticks times tick length, for every number of ticks, if and only if the rate divides 10^6 |
| TimeOfDay.UnevenRateGoesBack | GP2/Software/gp2_bsp/HAL/src/alt_gettod.c:91-93 | at every other rate below 10^6 there is a tick from which to the next the time told goes back |
| TimeOfDay.FindOverflow | GP2/Software/gp2_bsp/HAL/src/alt_gettod.c:92-93 | at such a rate, from any second on there is soon one that begins with a fraction large enough to run past 10^6 |
| TimeOfDay.OverflowTick | GP2/Software/gp2_bsp/HAL/src/alt_gettod.c:92-93 | and in such a second there is a tick at which it does |
| TimeOfDay.NeverGoesBackExactlyWhen | GP2/Software/gp2_bsp/HAL/src/alt_gettod.c:89-112 | the time told never goes back if and only if the rate divides 10^6 or is above it |
| TimeOfDay.FractionsAgreeExactlyWhen | GP2/Software/gp2_bsp/HAL/src/alt_settod.c:83-84 | the 32-bit product equals the 64-bit one modulo 10^6 exactly when its cut-off part is a multiple of 15625 |
| TimeOfDay.SetThenGetExactlyWhen | GP2/Software/gp2_bsp/HAL/src/alt_settod.c:60-64 | an immediate gettimeofday returns the value set exactly under that condition, or for a zero time that is clamped |
| TimeOfDay.SetThenGetCanDiffer | GP2/Software/gp2_bsp/HAL/src/alt_settod.c:83-84 | at 1000 ticks a second, after 4294968 ticks, setting 5 s reads back as 5.967296 s |
| TimeOfDay.SetThenLater | GP2/Software/gp2_bsp/HAL/src/alt_settod.c:80-84 | after a faithful set the clock goes on from there at the tick rate |
| Interrupts.RegisterFailsExactlyWhen | GP2/Software/gp2_bsp/HAL/src/alt_iic_isr_register.c:75-101 | a registration fails, with -EINVAL and no change, exactly when the number is no line; otherwise the entry is in place and the line enabled exactly if the handler is not null |
| Interrupts.RunKeeps | GP2/Software/gp2_bsp/HAL/src/alt_iic_isr_register.c:75-101 | over any run of registrations and disables IENABLE equals its shadow and an enabled line has a handler |
| Interrupts.EnabledExactlyByLastWord | GP2/Software/gp2_bsp/HAL/src/alt_iic_isr_register.c:92-95 | from reset, a line is enabled if and only if its last registration was with the non-null handler now in the table and nothing disabled it since |
| Interrupts.Controller.IrqEnable | GP2/Software/gp2_bsp/HAL/inc/priv/alt_legacy_irq.h:86-99 | shadow and register both gain the line |
| Interrupts.Controller.IrqDisable | GP2/Software/gp2_bsp/HAL/inc/priv/alt_legacy_irq.h:68-81 | shadow and register both lose the line |
| Interrupts.Controller.IsrRegister | GP2/Software/gp2_bsp/HAL/src/alt_iic_isr_register.c:75-101 | entry written and line enabled or disabled, or -EINVAL and nothing changed |
| Interrupts.Controller.LowestBit | GP2/Software/gp2_bsp/HAL/src/alt_irq_handler.c:132-155 | the bit loop ends at the lowest pending line |
| Interrupts.Controller.Handle | GP2/Software/gp2_bsp/HAL/src/alt_irq_handler.c:128-159 | every dispatch is of the lowest-numbered pending line with the non-null handler then in the table, whatever handlers register or disable, and the handler leaves only with nothing pending |
| Heap.StepKeeps | GP2/Software/gp2_bsp/HAL/src/alt_sbrk.c:73-136 | a sound request keeps the heap invariant, takes only unused bytes, and those are used from then on |
| Heap.AllApart | GP2/Software/gp2_bsp/HAL/src/alt_sbrk.c:68-136 | over any run mixing sound sbrk and slab requests all blocks lie in the heap and no two share a byte |
| Heap.FailedSlabIsUsed | GP2/Software/gp2_bsp/HAL/src/alt_gmon.c:137-147 | with too little heap for a slab, the first two blocks of twelve bytes lie at the failure value and at address 11 |
| Heap.OversizedBlockOverlaps | GP2/Software/gp2_bsp/HAL/src/alt_gmon.c:137-145 | a slab request of 1024 bytes, which no caller makes, would overlap the next block of sbrk |
| Heap.ShrunkHeapGivesAgain | GP2/Software/gp2_bsp/HAL/src/alt_sbrk.c:94-95 | after a negative increment the same bytes are given again |
| Heap.SbrkGivesExactlyWhen | GP2/Software/gp2_bsp/HAL/src/alt_sbrk.c:75-95 | for increments of either sign: a block is given exactly when the heap can be moved so far, at the first multiple of 4 from the end of the heap on; a failed request costs nothing but that alignment |
| Heap.AllocateIsBackedExactlyWhen | GP2/Software/gp2_bsp/HAL/src/alt_gmon.c:133-148 | a slab block lies in memory that sbrk has given if and only if it is at most 1020 bytes and the slab it needs could be had |
| Heap.AllocateStaysInSlab | GP2/Software/gp2_bsp/HAL/src/alt_gmon.c:133-148 | a slab block lies inside its slab and what is left of the slab is behind it |
| Heap.Allocator.MoreHeap | GP2/Software/gp2_bsp/HAL/src/alt_sbrk.c:68-136 | in-place form of sbrk, for any increment |
| Heap.Allocator.SlabAllocate | GP2/Software/gp2_bsp/HAL/src/alt_gmon.c:133-148 | in-place form of the slab allocator, for any size and with its slab had or not |
| Assembler.OpcodesAreDistinct | GP2/asm_to_mif.py:11-36 | opcodes have six bits and no two mnemonics share one |
| Assembler.UnpackFirst | GP2/asm_to_mif.py:135-142 | an encoded instruction in front of any words is read back from them, whatever follows |
| Assembler.StreamReadsBack | GP2/asm_to_mif.py:135-142 | any instruction list is read back from its word stream: mode, opcode, rz and rx modulo 16, operand modulo 2^16 |
| Assembler.StreamsAreUnique | GP2/asm_to_mif.py:135-142 | two lists have the same stream if and only if they agree in all of that |
| Assembler.AssembleInstruction | GP2/asm_to_mif.py:74-142 | the branches over mnemonic, operand count and mode, with the words or the error they give |
| AssemblerForms.OneOperandForm | GP2/asm_to_mif.py:87-107 | the fields of the words of every one-operand form: a register is rz, but for JMP rx; an immediate or direct operand is the second word; and exactly which operands are an error |
| AssemblerForms.TwoOperandForm | GP2/asm_to_mif.py:108-119 | of every two-operand form: the first is rz and the last rx or the second word, but STR of a direct operand has the first in rx |
| AssemblerForms.ThreeOperandForm | GP2/asm_to_mif.py:120-134 | of every three-operand form, which five mnemonics have |
| AssemblerForms.BareForm | GP2/asm_to_mif.py:76-86 | without operands, with more than three, or for NOOP: mode 0 and the opcode; an unknown mnemonic is an error |
| AssemblerForms.OperandKinds | GP2/asm_to_mif.py:62-72 | every operand is a register, an immediate, a direct one (decimal, a label, or an unknown name that counts as 0), or has a number that cannot be read |
| AssemblerForms.EmptyPartsAreDropped | GP2/asm_to_mif.py:83-84 | empty operands are dropped and the others kept in order |
| Assembler.JumpNeedsARegister | GP2/asm_to_mif.py:88-94 | a one-operand JMP is encoded if and only if its operand is R and a number |
| Assembler.MiddleOperandIsIgnored | GP2/asm_to_mif.py:120-134 | the three-operand form gives the same whatever its middle operand is |
| AssemblerForms.CommentsAreIgnored | GP2/asm_to_mif.py:49 | what follows a semicolon makes no difference |
| AssemblerForms.ColonLine | GP2/asm_to_mif.py:52-54 | a line with a colon is a label and what follows it, which is no instruction if it is empty, END or ENDPROG |
| AssemblerForms.PlainLine | GP2/asm_to_mif.py:55-60 | a line without one begins with a label exactly if its first word is an identifier, no mnemonic and not its only word |
| AssemblerForms.JoinedWithSpaces | GP2/asm_to_mif.py:58 | the words after such a label are joined with one space |
| Assembler.LabelsCountInstructions | GP2/asm_to_mif.py:152-166 | the labels are exactly those some line carries, each the number of instructions before the last line that carries it |
| Assembler.PassOne | GP2/asm_to_mif.py:144-166 | the loop ends with those labels and with the instruction texts in order |
| Assembler.PassTwo | GP2/asm_to_mif.py:167-182 | the words of the whole program, or the error of its first bad instruction |
| Assembler.Assemble | GP2/asm_to_mif.py:144-182 | both passes together |
| Assembler.AssemblesExactlyWhen | GP2/asm_to_mif.py:175-181 | a source assembles if and only if each of its instructions does on its own |
| Assembler.OneJumpToALabelStopsAll | GP2/asm_to_mif.py:94 | one JMP to a label anywhere and nothing is assembled |
| Assembler.AssembledReadsBack | GP2/asm_to_mif.py:176-182 | whatever assembles is read back from its words |
| Assembler.EncodedWidth | GP2/asm_to_mif.py:85-142 | whether an instruction takes a second word is decided by its mnemonic, the number of its operands and how the last of them begins |
| Assembler.WordsOfTexts | GP2/asm_to_mif.py:169-178 | so the number of words of a program can be told from its source: one for each text that is not skipped and one more for each in a two-word form |
| Assembler.LabelIsAddressExactlyWhen | GP2/asm_to_mif.py:156-166 | a label is the address of the word after the instructions before it if and only if as many of their source texts are in a two-word form as are skipped; with none skipped, if and only if none is in a two-word form |
| Assembler.ALabelCanMissItsWord | GP2/asm_to_mif.py:163-166 | in the source of the two lines "LDR R1 #1" and "L:" the label stands for 1, although the load takes two words |

## Left out

Contracts that say less than the source's loop or call can do:

- UartDriver.JtagUart.Write: a busy-wait with no bound is followed for any finite number of turns; an execution cut off inside one is `StillWaiting`, with the ring full and the host connected, and that the host ever moves is not claimed.
- UartDriver.JtagUart.AwaitRoom: the same finite view of its busy-wait.
- UartDriver.JtagUart.Read: the same, with the ring empty and the host connected.
- UartDriver.JtagUart.AwaitData: the same.
- UartDriver.JtagUart.Close: the same, with the ring not empty and the host connected.
- PrintfTheorems.StringIsObeyed: speaks of widths that fit an int and strings that fill less than half of the address space, for the padding is computed in 32 unsigned bits.
- Interrupts.Controller.Handle: the effects of the handlers are a finite script, so that handlers which keep raising lines for ever are seen only up to any finite point.
- UartAlone.ReadAlone: a blocking read of an empty ring is left out of this one, for alone it waits for ever.
- TimeOfDay.ReadingIsExact: speaks of true times that a 32-bit seconds field can tell.
- TimeOfDay.NeverGoesBackExactlyWhen: speaks of times that a 32-bit seconds field can tell, while the tick counter does not wrap; at an uneven rate the reset time may be negative, but the counter must have two seconds and a million ticks left when zero is reached, and the reset time may not lie in the last 16 seconds of the field.
- Heap.StepKeeps: speaks of sound requests, with increments that are not negative and slab requests of at most 1020 bytes that find a slab; the two lemmas beside it show blocks overlapping without that. The heap lies low enough that adding an int to an address does not wrap upwards.
- Heap.AllApart: the same.
- Heap.AllocateStaysInSlab: the same.
- Interrupts.Controller.IsrRegister: an interrupt number from 2^31 on is negative as an int, passes the test and is written outside the table, which C leaves undefined.
- AlarmClock.Clock.Tick: callbacks take alarms off the list only by returning zero, and start only alarms that were not registered when the tick began, each of them once; stopping another alarm from inside a callback is not modelled.

What the model leaves abstract:

- The control and data registers are their named fields; masks, shifts and offsets of the register layout are not modelled, and dummy reads are dropped.
- The device raises RI only with RE set and a byte waiting, and WI only with WE set and room; its thresholds are not fixed, so it may do so later than it could. Its FIFOs have 64 bytes.
- The processor's interrupt-disable sections are single steps; there is one processor, so the interrupt routine runs while callers stand still.
- `memcpy` is a copy byte by byte in rising order.
- `irq_enable` is two booleans.
- One writer and one reader at a time; the semaphores and event flags are empty macros in this build.
- The number of ticks in a second, and the period at which the presence check runs.
- A callback is a function from the number of the call to the alarms it starts and the period it returns.
- Looking up a device or file system by name, and what the device's own open, close and ioctl return, are arguments; `priv` and `mode` are left out. System calls are given descriptors below ALT_MAX_FD, and close and ioctl ones that are open, as the source demands.
- The errno numbers are newlib's.
- Missing or mismatched arguments of the format interpreters, undefined in C, read as zero or as the empty string; NUL inside a format is not modelled; a width that overflows an int is read as it is written; `fmtLong` chooses between types of equal size and has no effect.
- Shifts and masks of the hexadecimal printer are divisions and remainders by powers of 16.
- Characters of output are a sequence; waiting for the logging port is left out.
- A 32-bit interrupt mask is the set of its bits, and interrupt numbers from 2^31 on are left out.
- Python's `int`, `strip`, `split`, `upper`, `isdigit`, `isidentifier` and the field split are arbitrary functions in the assembler model, so nothing is claimed about white space or number formats; writing the MIF file is left out.

What is not modelled at all:

- The VHDL of the processors and the interconnect, pin assignments, and generated Quartus files.
- Other build variants: the small UART driver, direct drivers, semihosting, an operating system, the interrupt vector instruction, `ALTERA_AVALON_JTAG_UART_IGNORE_FIFO_FULL_ERROR`, `ALT_MAX_HEAP_BYTES`, stack checking.
- System-call stubs, the vectors of read, write, lseek, fstat and isatty, and the log switches, which would add only easy members.
- The profiler's call graph and histogram, busy sleep, cache flushing and exception entry.
- `gp2.c`, the display loop of the application.
