# Verified models of the concurrent driver lessons

The repository is a set of small Linux drivers. Several of them are complete little protocols:
a byte queue behind a lock, the same queue with wait queues and `poll`, a linked list in kernel
memory, spinlocks shared with interrupt handlers, an atomic open counter, a debouncing timer,
initialisation with rollback, and arithmetic on wrapping clocks. This project models those and
proves what they are written for.

A protocol is a step machine: a value for the whole state, a step function with one action per
statement that another thread could be interleaved with, and `Exec`, the state after a list of
actions. A list of actions is one schedule of any number of threads, so a lemma about
`Exec(run)` for every `run` is a statement about every interleaving. Code that changes a data
structure in place is a class or a method with the source's loops; its contract says that the
object changes as the machine's step says.

| file | what it models |
|---|---|
| `Fifo.dfy` | the 512-byte queue as atomic operations, and concurrent callers of it |
| `LockedKbuf.dfy` | one locked kbuf device, statement by statement, under a mutex or a semaphore |
| `KbufDevices.dfy` | the sixteen devices together, with open files |
| `ByteArrays.dfy`, `KbufObject.dfy` | the bytes in place: `memmove`, the copies, `kbuf_read`, `kbuf_write` |
| `PollKbuf.dfy`, `PollProgress.dfy`, `PollHistory.dfy`, `PollZeros.dfy`, `PollObject.dfy` | the blocking driver: wait queues, signals, `poll`, the epoll server's use of it, how calls end, what they move, which return 0 |
| `StuList.dfy` | the circular list of heap nodes, its calls and its exit walk |
| `SpinPrint.dfy`, `SpinCalls.dfy`, `SpinProgress.dfy`, `SpinObject.dfy` | `print_string` under a spinlock with processes, tasklets and interrupt handlers: what is printed, who hangs, and the loop in place |
| `OpenCounter.dfy` | exclusive open by an atomic counter, in both variants |
| `FoolThreads.dfy` | two threads that count up and down under one spinlock |
| `Debounce.dfy` | edge interrupts, the shared timer and the tasklet of the key driver |
| `InitLedger.dfy` | initialisation loops with rollback, against a ledger of resources |
| `TimeArith.dfy` | the jiffies delay and the elapsed-time formulas |

Kernel primitives (mutex, semaphore, spinlock, wait queue, timer, tasklet, allocator, user
copies) are step-level specifications. Steps are sequentially consistent. Whether a user copy,
an allocation or a registration fails, when signals and interrupts come and which thread runs
next are inputs.

Where the code does something its comments do not promise, the model follows the code:

- `num > LIMIT_STU` admits 51 records, not 50. A write whose copy fails returns the number of
  bytes not copied, so a copy that fails completely looks like success (`StuList.WriteResult`,
  `StuList.FaultLooksLikeSuccess`).
- Once a release of `locks/atomic/demo.c` reads the counter while another open is failing, it
  skips its increment and no open ever succeeds again (`OpenCounter.ReusableExactly`,
  `OpenCounter.DisturbedReleaseLocksOut`, `OpenCounter.SkipHappens`).
- `kbuf_init` returns 0 after a `device_create` or proc entry failure although it has given
  everything back (`InitLedger.KbufInit`, `InitLedger.SilentFailure`).
- A read of the blocking driver can be woken and still return 0 (`PollKbuf.WokenReadMayReturnZero`,
  `PollZeros.NoZeroExactly`).
- A timer or a tasklet of the key driver that runs late loses a burst, because both hold one key
  only (`Debounce.DebouncesExactly`, `Debounce.LateTimerLoses`, `Debounce.LateTaskletLoses`).
- `mydelay` of more than half the range of the tick counter returns at once
  (`TimeArith.NeverEarlyExactly`).

Assumptions that are part of a model, because the source depends on them:

- `PollKbuf`: the driver has no lock; `min` through the `validlen` update is one step.
- `StuList`: the driver has no lock; calls do not overlap.
- `SpinPrint`: a process inside `print_string` is not preempted, as the spinlock guarantees once
  it is being taken; a preempted caller that has not yet come that far counts as one more
  processor.

## Model

| member | source | states |
|---|---|---|
| Fifo.ApplyMeans | locks/mutex/kbuf.c:69-153 | the atomic queue is exactly this: a read without a fault takes from the front all it asked for or leaves the queue empty, a write puts in its whole payload or fills the 512 bytes, and every other call has the error that fits and changes nothing |
| Fifo.LegalConserves | locks/mutex/kbuf.c:64-153 | in a legal one-at-a-time history, the bytes taken from writers are the bytes given to readers followed by the queue |
| Fifo.LegalMeans | locks/mutex/kbuf.c:64-153 | in a legal history each call does that to the bytes then in the queue, as told from what went in and came out before |
| Fifo.AbsHistoryLegal | locks/mutex/kbuf.c:64-153 | every run of the atomic queue with concurrent callers has a legal history that ends in its queue |
| Fifo.AbsReturnsExplained | locks/mutex/kbuf.c:64-153 | every result a caller of the atomic queue gets is that of its own entry in the history |
| LockedKbuf.StepInv | locks/mutex/kbuf.c:64-153 | every step of every thread keeps `validlen` within 512, the lock word in agreement with the one thread inside, and each thread's locals true of the buffer |
| LockedKbuf.CriticalStep | locks/mutex/kbuf.c:75-108 | inside the lock exactly one statement of a call applies it to the queue; the others, a failed and scribbling copy included, leave the queue as it is |
| LockedKbuf.StepRefines | locks/mutex/kbuf.c:64-153 | each statement of the driver is one action of the atomic queue or none |
| LockedKbuf.RefinesAtomicQueue | locks/mutex/kbuf.c:64-153 | after any interleaving the driver stands for a state of the atomic queue reached by the corresponding run, with the same calls returned in the same order with the same results |
| LockedKbuf.BytesConserved | locks/mutex/kbuf.c:82-99 | in every reachable state, between the data move and the `validlen` update too, bytes accepted in lock order equal bytes delivered in lock order followed by the logical queue |
| LockedKbuf.EachCallMeans | locks/mutex/kbuf.c:75-108 | in every reachable state, each call that took effect moved all it was asked to or all there was, or room for, or has the error that fits the queue it found |
| LockedKbuf.ReturnsAreAtomic | locks/mutex/kbuf.c:69-108 | every returned call was empty and returned 0, or is in the legal history with the result it returned |
| LockedKbuf.MutualExclusion | locks/semaphore/kbuf.c:73-102 | at most one thread is between lock and unlock, and the semaphore's count plus those inside is 1 |
| LockedKbuf.FinishOne | locks/mutex/kbuf.c:64-153 | a thread that has the lock, or finds it free, can run its call to the end and gives the lock up, whatever the call's outcome |
| LockedKbuf.EveryCallCanReturn | locks/mutex/kbuf.c:64-153 | deadlock freedom: every reachable state can be continued to one in which all calls have returned and the lock is free |
| KbufDevices.SysStepInv | locks/mutex/kbuf.c:49-62 | steps of the sixteen-device system keep every device and its callers in order |
| KbufDevices.StepProjects | locks/mutex/kbuf.c:49-62 | a step of the system is, seen from one device, a step of that device or nothing |
| KbufDevices.FilesExactly | locks/mutex/kbuf.c:49-62 | after any run an open file is bound to the minor of its last opening, and a file not opened or released since to none |
| KbufDevices.ThreadsExactly | locks/mutex/kbuf.c:64-67 | a thread in a call works on the device of the file it called through |
| KbufDevices.DevicesIsolated | locks/mutex/kbuf.c:49-153 | seen from device d, any run of the whole system is the run of the calls made through files opened with minor d, as the list of actions tells them, with the same state and the same results |
| KbufDevices.EveryDeviceRefinesAtomicQueue | locks/mutex/kbuf.c:49-153 | so each device of the system is an atomic queue for its own callers |
| ByteArrays.MoveDown | locks/mutex/kbuf.c:91 | the byte loop leaves in the array what `memmove` promises |
| ByteArrays.Store | locks/mutex/kbuf.c:131 | a copy into the buffer changes exactly the bytes it covers |
| KbufObject.SoloMatchesAtomic | locks/mutex/kbuf.c:64-153 | a call that runs alone through the machine does what the atomic operation does and leaves the lock free |
| KbufObject.SoloIsRun | locks/mutex/kbuf.c:64-153 | the rest of a call that runs alone is a run of the machine that returns its outcome |
| KbufObject.CallServed | locks/mutex/kbuf.c:64-153 | from every reachable state with the lock free, a new call can run to its end and returns and leaves in the queue what the call means |
| KbufObject.Kbuf.constructor | locks/mutex/kbuf.c:205-228 | a new device has 512 zero bytes, none of them valid, and a free lock |
| KbufObject.Kbuf.ReadLocked | locks/mutex/kbuf.c:77-95 | the critical section of the read, on the array, is the rest of the machine's steps up to the unlock, and delivers all that was asked for or all there is |
| KbufObject.Kbuf.Read | locks/mutex/kbuf.c:64-109 | `kbuf_read` in place: result and remaining bytes are what a read means, and every path gives the lock up |
| KbufObject.Kbuf.WriteLocked | locks/mutex/kbuf.c:124-139 | the critical section of the write, on the array, is the rest of the machine's steps up to the unlock, and stores all of the payload or as much as there is room for |
| KbufObject.Kbuf.Write | locks/mutex/kbuf.c:111-153 | `kbuf_write` in place: result and bytes are what a write means, also when a failed copy scribbled |
| PollKbuf.StepJustified | kbufchardrv_poll/kbuf.c:73-113 | each step keeps every sleeper justified: its condition is false, or a wake-up of its queue is under way |
| PollKbuf.NoLostWakeup | kbufchardrv_poll/kbuf.c:73-113 | in every run a sleeping reader means an empty buffer or a writer before its wake-up; a sleeping writer means a full buffer or a reader before its wake-up |
| PollProgress.SignalEndsSleep | kbufchardrv_poll/kbuf.c:73-76 | a signal ends a sleep whose condition is false: after five statements of its own the call has returned -ERESTARTSYS, and nothing else is changed |
| PollProgress.WokenServes | kbufchardrv_poll/kbuf.c:73-88 | a sleeper that is woken, or gets a signal, and finds its condition true returns in seven statements what the call means |
| PollProgress.FinishOne | kbufchardrv_poll/kbuf.c:63-116 | wherever a call is, its thread alone can bring it to its return, with a signal if it must |
| PollProgress.EveryCallCanReturn | kbufchardrv_poll/kbuf.c:63-116 | every run can be continued, with signals, to one in which all calls have returned |
| PollKbuf.NoMutualSleep | kbufchardrv_poll/kbuf.c:73-113 | a reader and a writer never sleep at the same time unless a wake-up is under way |
| PollKbuf.BytesConserved | kbufchardrv_poll/kbuf.c:78-112 | in every run the bytes taken from writers are the bytes given to readers followed by the valid bytes |
| PollKbuf.TransferBytes | kbufchardrv_poll/kbuf.c:78-112 | a transfer takes a prefix off, or puts a prefix of the payload behind, the valid bytes; a faulting one keeps them |
| PollKbuf.TransferMoves | kbufchardrv_poll/kbuf.c:78-112 | a transfer moves all that its call asked for, or all there is, or all there is room for; one that faults returns -EIO and keeps the valid bytes |
| PollHistory.EachTransferMoves | kbufchardrv_poll/kbuf.c:78-112 | in every run each transfer did so to the bytes then valid |
| PollHistory.EveryCallerTold | kbufchardrv_poll/kbuf.c:63-116 | in every run what a call returned is its transfer in the history, its fault, its signal, or 0 for an empty call |
| PollZeros.ZerosCounted | kbufchardrv_poll/kbuf.c:63-116 | in every run the non-empty calls that returned 0, or are about to, are as many as the transfers whose wait condition had become false again |
| PollZeros.NoZeroExactly | kbufchardrv_poll/kbuf.c:63-116 | once all calls of a run are over, none that was not empty returned 0 exactly if no call came to its transfer with its condition false again |
| PollZeros.SoleNeverZero | kbufchardrv_poll/kbuf.c:73-88 | with a single reading thread no non-empty read returns 0, and with a single writing thread no non-empty write does, whatever the other side does |
| PollKbuf.WokenReadMayReturnZero | kbufchardrv_poll/kbuf.c:73-88 | a run exists in which a reader sleeps, is woken, and returns 0 |
| PollKbuf.PollTellsReadiness | kbufchardrv_poll/kbuf.c:118-144 | both input flags are in the mask exactly if a read would not wait, both output flags exactly if a write would not |
| PollKbuf.StaysReadable | kbufchardrv_poll/kbuf.c:118-144 | with a single reader, a readable device stays readable whatever the writers do |
| PollKbuf.PolledReadDelivers | kbufchardrv_poll/app/readserver.c:79-90 | with a single reader, the read after a readable poll never queues or sleeps, is over exactly once it has had five steps of its own, and then has returned once, with between 1 and the requested number of bytes |
| PollKbuf.AloneIsRun | kbufchardrv_poll/kbuf.c:63-116 | the closed form of a call that nobody disturbs is one of the machine's runs |
| PollKbuf.AloneOutcome | kbufchardrv_poll/kbuf.c:63-116 | such a call sleeps exactly if it is not empty, its condition is false and no signal is pending; otherwise it returns -ERESTARTSYS or does what the atomic queue does |
| PollKbuf.ReturnsPlausible | kbufchardrv_poll/kbuf.c:63-116 | in every run no call returns more than it asked for, and a read's result is its number of bytes |
| PollKbuf.ServeRead | kbufchardrv_poll/app/readserver.c:80-91 | for any result of the read of 511 bytes the terminating 0 is stored inside the 512-byte buffer right after the data |
| PollObject.Kbuf.PrepareToWait | kbufchardrv_poll/kbuf.c:73 | joining the queue changes the device as the machine's queueing step does |
| PollObject.Kbuf.FinishWait | kbufchardrv_poll/kbuf.c:73-76 | leaving the queue, with the condition or with a signal, changes the device as the machine's step does |
| PollObject.Kbuf.ReadData | kbufchardrv_poll/kbuf.c:78-85 | the read's data section on the array is the machine's transfer and takes all that was asked for or all there is |
| PollObject.Kbuf.WriteData | kbufchardrv_poll/kbuf.c:106-112 | the write's data section on the array is the machine's transfer and adds all of the payload or fills the buffer |
| PollObject.Kbuf.WakeUpOthers | kbufchardrv_poll/kbuf.c:86 | the wake-up empties the other side's queue and nothing else |
| PollObject.Kbuf.WaitEvent | kbufchardrv_poll/kbuf.c:73-76 | the wait lets the call through, leaves it asleep in its queue, or ends with -ERESTARTSYS, as condition and signal say |
| PollObject.Kbuf.Read | kbufchardrv_poll/kbuf.c:63-89 | `kbuf_read` in place, undisturbed: asleep in the queue exactly on an empty buffer without a signal, otherwise the machine's whole call with the result and the bytes that a read means |
| PollObject.Kbuf.Write | kbufchardrv_poll/kbuf.c:91-116 | `kbuf_write` in place, undisturbed: asleep exactly on a full buffer without a signal, otherwise the machine's whole call with the result and the bytes that a write means |
| StuList.ArrivalOrder | dlist/dlist.c:38-90 | for every list of calls the payloads linked in are the payloads delivered followed by the queue, and the queue holds at most 51 |
| StuList.FiftyOneReached | dlist/dlist.c:73-75 | 51 is reached |
| StuList.WriteResult | dlist/dlist.c:64-90 | a write gets -EAGAIN exactly on 51 entries, returns the full count exactly if it queued the record or every byte of the copy failed, and returns a positive result without queueing exactly if its copy failed |
| StuList.ReadResult | dlist/dlist.c:38-62 | after any calls, a read of the right size returns the oldest record and takes it off, unless there is none or its copy fails; then nothing changes, and 0 is returned exactly on the empty queue |
| StuList.WrittenAreRead | dlist/dlist.c:38-90 | up to 51 records written one after the other are read back, each once and in order, and the list is empty again |
| StuList.FaultLooksLikeSuccess | dlist/dlist.c:77-84 | a first write whose copy fails on every byte returns the full count, queues nothing and loses its node |
| StuList.RingWellFormed | dlist/dlist.c:86-87 | in a linked ring `next` and `prev` undo each other, and following `next` visits each node once before it is back at the head |
| StuList.StuHead.constructor | dlist/dlist.c:109 | the new list is an empty ring |
| StuList.KbufInit | dlist/dlist.c:105-118 | loading makes an empty ring and returns the error of `misc_register`, or 0 |
| StuList.StuHead.ListAddTail | dlist/dlist.c:86 | linking a node in at the tail keeps the ring linked and appends the node and its payload |
| StuList.StuHead.ListDelFirst | dlist/dlist.c:56 | unlinking the first node keeps the ring linked and drops that node and its payload |
| StuList.StuHead.Read | dlist/dlist.c:38-62 | the read on the heap delivers and unlinks the oldest record if all is well and otherwise changes nothing; ring, counter and allocations stay in order |
| StuList.StuHead.Write | dlist/dlist.c:64-90 | the write on the heap appends its record if all is well and otherwise tells the first obstacle; it loses a node exactly where the model counts a leak |
| StuList.StuHead.Exit | dlist/dlist.c:122-134 | the exit walk ends, frees the nodes of the ring each once and in order, and reads only nodes not yet freed |
| StuList.Session | dlist/dlist.c:38-138 | after any list of calls and the exit walk, no node was freed twice, and every allocated node was freed exactly if no write faulted |
| SpinPrint.StepInv | locks/spinlock/spinlock_bh/demo.c:27-38 | every step on every processor keeps masking depth, interrupt state, lock and log consistent |
| SpinPrint.EveryPrinterPrints | locks/spinlock/spinlock_bh/irq.c:33-60 | a process begins a call when it runs, an interrupt that prints begins its one call and then ends |
| SpinCalls.PrintsInThrees | locks/spinlock/spinlock/demo.c:20-44 | for any number of processors and any interrupts, log line k carries count k, lines 3j to 3j+2 come from one call and no other lines do, and `g_count` lags the log by one only between print and increment |
| SpinCalls.EveryCallPrintsThree | locks/spinlock/spinlock/demo.c:20-44 | in every run a call that is over has printed exactly three lines, one not begun none, and no two contexts are in one call |
| SpinPrint.NoSelfDeadlock | locks/spinlock/spinlock_bh/demo.c:27-38 | if the lock is taken with its interrupting users masked, no context ever spins on a lock held below it on its processor |
| SpinPrint.DriversNeverSpinOnThemselves | locks/spinlock/spinlock_irqsave/irq.c:38-49 | the plain, bottom-half and irqsave drivers as they are never do |
| SpinPrint.MaskingUndone | locks/spinlock/spinlock_irqsave/demo.c:28-38 | leaving `print_string` restores the interrupt state of its entry, in the handler too, and leaves bottom halves on |
| SpinPrint.SelfDeadlockExactly | locks/spinlock/spinlock_bh/irq.c:33-60 | on any number of processors, a run that hangs one exists exactly if some interrupt that prints is not masked |
| SpinPrint.HangsForever | locks/spinlock/spinlock/demo.c:37-44 | such a hang is never resolved by anything that happens later |
| SpinProgress.EveryCallCanReturn | locks/spinlock/spinlock_irqsave/demo.c:28-38 | if the lock is taken with its interrupting users masked, every run can be continued until no call and no interrupt is under way and the lock is free |
| SpinProgress.CanFinishExactly | locks/spinlock/spinlock_bh/irq.c:33-60 | on any number of processors that holds of every run exactly if the users are masked |
| SpinObject.AfterIsRun | locks/spinlock/spinlock/demo.c:20-29 | the statements of an undisturbed caller are a run of the machine |
| SpinObject.CalledAfter | locks/spinlock/spinlock/demo.c:20-29 | eleven statements from outside a call print its three lines with consecutive counts and leave the lock free |
| SpinObject.Demo.PrintString | locks/spinlock/spinlock/demo.c:20-29 | the loop changes the driver's variables as those statements do and keeps the log grouped |
| OpenCounter.CounterAccounts | kernel_code_v1/lock/atomic/demo.c:36-46 | in every interleaving the counter is 1 minus holders minus failing opens minus skipped increments, and holders plus skipped is at most 1 |
| OpenCounter.AtMostOneHolder | kernel_code_v1/lock/atomic/demo.c:36-46 | no two threads hold the device, in either variant |
| OpenCounter.EveryoneLeaves | locks/atomic/demo.c:50-68 | every run can be continued until all opens and releases are over |
| OpenCounter.NothingSkippedExactly | locks/atomic/demo.c:61-68 | over a whole run the testing release makes all its increments exactly if no holder began its release while an open was between its decrement and its undoing |
| OpenCounter.ReusableExactly | locks/atomic/demo.c:42-68 | once all calls are over the counter is 1, and the next open succeeds, always with the plain release and with the testing one exactly if no release in the run was disturbed so |
| OpenCounter.SkipsExactly | locks/atomic/demo.c:61-68 | the testing release skips its increment exactly if an open is between its decrement and its undoing |
| OpenCounter.SkipLocksOut | locks/atomic/demo.c:53-68 | after one skipped increment every later open returns -EBUSY for ever |
| OpenCounter.DisturbedReleaseLocksOut | locks/atomic/demo.c:53-68 | so one disturbed release makes every open of every continuation fail |
| OpenCounter.SkipHappens | locks/atomic/demo.c:53-68 | a run exists that ends with no calls open and the counter at 0 |
| OpenCounter.OpenFlags.DecAndTest | locks/atomic/demo.c:53 | the decrement and test is the machine's opening step and tells whether the device is held |
| OpenCounter.OpenFlags.IncAfterFailure | locks/atomic/demo.c:54-55 | the undoing increment is the machine's step and reports -EBUSY |
| OpenCounter.OpenFlags.ReleaseFirst | locks/atomic/demo.c:61-67 | the first atomic operation of either release is the machine's step and tells whether an increment is still to come |
| OpenCounter.OpenFlags.AtomicOpen | locks/atomic/demo.c:50-59 | an open with no other thread in between takes the free device, or returns -EBUSY and changes nothing |
| OpenCounter.OpenFlags.AtomicRelease | locks/atomic/demo.c:61-68 | a release with no other thread in between frees the device, unless the testing one finds the counter below 0 |
| OpenCounter.OpenReleaseOpen | locks/atomic/demo.c:50-68 | one user after the other: the second is turned away while the first has the device and gets it afterwards, with either release |
| FoolThreads.Advance | locks/app/main.c:30-54 | one step of a thread changes the variable only at its store, by 1 upwards in the first thread and downwards in the second, and keeps the lock exclusive |
| FoolThreads.RunThreads | locks/app/main.c:56-85 | for every count and schedule both threads finish, the variable ends at its initial value, and every value in between is within the count of it |
| Debounce.BurstEndsGrow | keys/key.c:81-89 | a new edge extends the current burst or begins a new one by the gap alone |
| Debounce.EdgesExactly | keys/key.c:81-89 | the edges that count are those of the run, each at the time of the ticks before it |
| Debounce.ExpirySchedules | keys/key.c:74-78 | a timer that is due runs out and schedules its key |
| Debounce.TaskletCounts | keys/key.c:49-56 | a scheduled tasklet is done after it has run, and has counted its key once and no other |
| Debounce.CountsBursts | keys/key.c:49-89 | in every run, however late timer and tasklet are, a key's count plus what timer and tasklet still hold plus what was lost is the number of bursts ending with that key, and its byte is the parity of its count |
| Debounce.LostExactly | keys/key.c:74-89 | nothing is lost exactly if no edge came while the timer was due and the tasklet had run before each further expiry |
| Debounce.DebouncesExactly | keys/key.c:49-89 | at rest, every count equals its number of bursts exactly if timer and tasklet kept up in that sense |
| Debounce.ComesToRest | keys/key.c:49-89 | every run comes to rest by ticks, an expiry and tasklets that are in time |
| Debounce.EveryBurstCounts | keys/key.c:49-89 | as long as the handlers have kept up they can, and then each key's count is the number of bursts that the edges of the run make |
| Debounce.LateTaskletLoses | keys/key.c:74-78 | a run exists in which a late tasklet makes a key with two bursts count one |
| Debounce.LateTimerLoses | keys/key.c:81-89 | a run exists in which another key's edge takes over the timer that is due, and a key with one burst counts none |
| Debounce.Keys.KeyIrq | keys/key.c:81-89 | the edge handler notes the key and pushes the timer back, taking over a timer that is due |
| Debounce.Keys.TimerExpires | keys/key.c:74-78 | the timer hands its key to the tasklet, replacing one not yet run |
| Debounce.Keys.Tasklet | keys/key.c:49-56 | the tasklet is no longer scheduled, has counted its key up by one, and stored the parity |
| Debounce.Session | keys/key.c:49-89 | the handlers on the driver's variables, through any run: at rest the counts are those of the bursts exactly if the handlers kept up |
| InitLedger.SetUp | kbufchardrv_poll/kbuf.c:209-245 | one round of the loop ends with its four resources held or none of them, with the code of its first failure |
| InitLedger.TearDown | kbufchardrv_poll/kbuf.c:249-260 | the rollback loop gives back all that is held and only that |
| InitLedger.KbufInit | kbufchardrv_poll/kbuf.c:172-264 | for every number of devices and every set of failures the ledger ends complete or empty, complete exactly if nothing needed fails; the code is -ENOMEM for a buffer, 0 for a node or proc entry, and the kernel's own for the others; 0 is returned on an empty ledger exactly if what fails first is a device node or proc entry, so that a loaded module can be unloaded safely exactly if that is not so |
| InitLedger.KbufExit | kbufchardrv_poll/kbuf.c:268-284 | exit from the complete ledger empties it |
| InitLedger.Session | kbufchardrv_poll/kbuf.c:172-284 | without a silent failure, loading and, if it returned 0, unloading leaves nothing held |
| InitLedger.SuccessExactly | kbufchardrv_poll/kbuf.c:172-247 | the loops find no failure exactly if no resource of the complete set can fail |
| InitLedger.FirstBadIsFirst | kbufchardrv_poll/kbuf.c:172-245 | the failure that counts is the first in the order region, class, and for each device buffer, cdev, node, proc entry |
| InitLedger.SilentFrom | kbufchardrv_poll/kbuf.c:209-245 | the first failure is a device node or proc entry exactly if some device's node or entry fails after everything before it could be had |
| InitLedger.SilentFailure | kbufchardrv_poll/kbuf.c:226-231 | it happens for every number of devices: the first node fails, 0 is returned, nothing is held |
| InitLedger.RequestIrqKeys | irq/irq_shared/demo.c:55-88 | all eight handlers are registered and 0 is returned, exactly if none of them is refused, or none is and the code of the first refused handler is returned |
| InitLedger.FirstRefusedIsFirst | irq/irq_shared/demo.c:58-77 | the refusal that counts is the first, key by key, the first handler before the second |
| InitLedger.FreeIrqKeys | irq/irq_shared/demo.c:27-35 | unloading frees all eight, each held when freed |
| TimeArith.NeverEarlyExactly | time/currenttime/demo0.c:32-34 | wherever the counter stands, the loop condition holds throughout the delay exactly if the delay is at most half the counter's range, and with a longer one does not hold even at the start |
| TimeArith.MyDelay | time/currenttime/demo0.c:30-37 | the loop ends, at the first reading at which the delay has really elapsed, also when the counter wraps |
| TimeArith.ElapsedWraps | time/currenttime/demo0.c:62 | all wrapping after the subtraction of the seconds cancels: the value is that of the formula with the seconds as a signed `long`, wrapped once |
| TimeArith.DifferenceMeans | time/currenttime/demo0.c:62-69 | the exact formula is the later stamp minus the earlier, each as one number of fractions |
| TimeArith.ElapsedInLong | time/currenttime/demo0.c:69 | in a word of the width of `long` the wrapping of that subtraction cancels too |
| TimeArith.ElapsedExactly | time/currenttime/demo0.c:69 | the formula of `long` width gives the true time, borrow included, exactly if the stamps are in order and the time fits the word |
| TimeArith.ElapsedWideExactly | time/currenttime/demo0.c:62 | the formula of the wider word does exactly if the stamps are in order and the seconds are less than half the range of `long` apart |
| TimeArith.ElapsedOnBoard | time/currenttime/demo0.c:62-69 | both conditions with the board's numbers: 64-bit nanoseconds, 32-bit microseconds |
| TimeArith.MicrosExactly | kernel_code_v1/kernel_time/demo2.c:67 | the microsecond formula is within 1000 ns of the truth and is the truth rounded down, but up on an uneven borrow |
| TimeArith.MicrosStored | kernel_code_v1/kernel_time/demo2.c:61-67 | with every operation wrapping at 32 bits, the stored value is the exact formula's wrapped once, and equal to it exactly if that fits |

## Left out

- The interleavings of `LockedKbuf`, `KbufDevices`, `PollKbuf`, `SpinPrint`, `OpenCounter` and `Debounce` are step functions on values, because a method body cannot be interrupted; the classes beside them do the same steps in place.
- `copy_to_user`, `copy_from_user` and `memmove` are single steps of the machines; a failed copy may leave any bytes in the range it was given.
- LockedKbuf.MutualExclusion: says nothing about which waiting thread gets the lock; fairness is not modelled.
- The core of `poll` and `epoll` that registers and wakes the pollers is not part of this model; `kbuf_poll` is its mask.
- StuList.StuHead.ListDelFirst: the poison values that `list_del` stores in the unlinked node are not modelled, because the node is freed next.
- StuList: two calls at the same time; the driver does not lock its list.
- SpinPrint: the text of the lines, the per-key counters of the handlers, and the merging of several interrupts into one tasklet run.
- SpinCalls.PrintsInThrees: does not model the wrap-around of `g_count` after 2^31 lines.
- OpenCounter.CounterAccounts: does not model 2^31 opens failing at once.
- Debounce: `key_read` and its event flag; the delay is a number of jiffies, whatever 30 ms are.
- InitLedger: the mutex and semaphore drivers' initialisation is the same loop without the proc entry; the branch for a fixed major number is never taken, because `major` starts at 0.
- TimeArith.MyDelay: `sec*HZ` is one number of ticks; its overflow as an `int` is not modelled.
- `up_time` and `display_time`: hours, minutes and seconds of a number of seconds.
- `locks/kbufchardrv/kbuf.c`: it exists to show the race, and the queue properties are false for it.
- `kbufchardrv/kbuf.c`, `kbufchardrv_block/kbuf.c`, `kbufmisc/kbuf.c`, `kbufioctl/kbuf.c`: the same queue with less around it.
- LED, buzzer, ADC, touchscreen and other register code, the bus and platform demos, `printk` formatting and proc pages.
