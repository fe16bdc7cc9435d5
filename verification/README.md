# xyco in Dafny

A model of the core of xyco, a C++20 coroutine runtime, and proofs about it.
`dafny verify dfyconfig.toml` checks all of it.

The **timing wheel** (`src/time/wheel.cc`) has five levels of 60 slots; the five
cursors are the digits of one base-60 number, the position. `Odometer` gives each
tick a *cell* (60 * level + slot) relative to the position; `WheelModel` states
what inserting, walking and expiring compute in terms of cells, with the invariant
every call keeps; `WheelRuns` is about whole runs; `WheelEmission` says exactly what
each call does under a clock of any fineness and `WheelLateness` how late that can
be; `TimingWheel` is the class with the carry loops, the sweeps and the
re-insertions, proved to compute the functions of `WheelModel`. Clock times are integers in a unit of any fineness (`unit` ticks
make one millisecond); a *whole-millisecond* clock is one whose times are multiples
of it. The clock's reading is a parameter.

The **wake-up protocols** are step systems over unbounded runs and any number of
participants. The classes beside them do the same in place, and their methods are
proved to take exactly the steps of the system: the run queue (`RunQueue`), the mpsc
channel with one poll as one step (`Mpsc`) and with one locked section as one step
(`MpscSections`), `join` (`Join`), `select` (`Select`), the await and cancel chain
(`CancelChain`), the blocking registry (`BlockingRegistry`), and `sleep` and `timeout`
from first poll through wheel, wake and run queue to the answer (`Sleep`, `Timeout`).

The **stream loops** `write_all` and `read_to_end` are in `Streams`.

What the proofs found in the code:

- The "up to 9 days" of the wheel count from its creation, not from the present:
  the position never wraps, and an `expire` that would take it to 60^5 throws,
  having moved `now_` already, and hands out nothing (`WheelRuns.ExpireRange`). A
  jump of 2^31 ms or more is cut to 32 bits and may walk too little without
  throwing. `WheelRuns.RangeIsNeeded` says which timers come out in either case.
- `expire` sets `now_` to the clock but advances by whole milliseconds only, so each
  call can leave a fraction behind and the position lags further and further behind
  the clock. An event is kept past its deadline by less than that lag
  (`WheelLateness.RunNotLate`), which grows by less than a millisecond per call
  (`WheelLateness.LagIsBounded`).
- The comment at src/time/wheel.cc:92 says current and next slot are moved to a
  lower level. With a whole-millisecond clock the next slot's events go back where
  they were; only a finer clock can lower them. The model does what the code does.
- A sender that finds the buffer full releases the queue lock before it parks. If
  another thread empties the buffer in between, sender and receiver wait for each
  other with nothing scheduled (`MpscSections.StrandedSender`). A sender is stranded
  if and only if it parks as the only activity left on the channel
  (`MpscSections.StrandedIffStrands`); it is enough that the buffer is still full at
  that moment (`MpscSections.NoneStranded`), as it is when push and park are not
  separated (`MpscSections.AtOnceIsFull`).
- `receiver_` is never cleared, so a receive that already completed can be left in
  the run queue (`Mpsc.StaleEntryIsReachable`). Its poll takes a value nobody gets
  (`Mpsc.StalePollLoses`), or takes the receiver slot, so that the next send
  schedules it instead of the receive that waits (`Mpsc.StalePollMisdirects`). A
  receive that waits beside buffered values is always scheduled if and only if every
  push finds the slot on it or finds it scheduled (`Mpsc.NotifiedIffReach`). No entry
  of a completed receive arises if and only if every push finds the slot empty or on
  the waiting receive, not yet scheduled (`Mpsc.LiveIffQuiet`). In the source the
  polled object may be destroyed by then.
- Closing the last sender wakes nobody: a receive that waits at that moment on an
  empty buffer and is not in the run queue is never scheduled again
  (`Mpsc.ForgetStep`, `Mpsc.ForgottenForever`, `Mpsc.ForgottenIsReachable`).
- Awaiting a completed future again clears `waited_` of the frame that awaited it
  first. A suspended frame lacks its pointer if and only if that happened to it during
  this very await (`CancelChain.PointerMissing`), and a cancel stops at the first
  frame of the chain that lacks it (`CancelChain.CancelMarks`), so it can miss the
  frame it should reach (`CancelChain.CancelMissesCallee`).
- `read_to_end` dereferences the result of a failed read; it is defined if and only
  if the stream ends before a read fails (`Streams.BufferReader.ReadToEnd`).
- `join` and `select` promise the leftmost exception. They extract the results as
  arguments of one constructor call, whose order of evaluation C++ leaves open; the
  model takes them from left to right, as the documentation says.

## Model

| member | source | states |
|---|---|---|
| `Odometer.CellLayout` | src/time/wheel.cc:20-36 | a tick's cell is slot s of level k if and only if tick and position share every digit above k, s is the tick's digit at k, and s is ahead of the cursor (at or ahead of it on level 0) |
| `Odometer.CellMonotone` | src/time/wheel.cc:63-90 | a later tick never has an earlier cell, so sweeping cells in order sweeps time in order |
| `Odometer.CellShift` | src/time/wheel.cc:63-90 | moving the position leaves every cell beyond that of the new position where it was |
| `Odometer.CellCurrent` | src/time/wheel.cc:110-114 | the level-0 cursor slot is the cell of the position itself and of no later tick |
| `Odometer.CellRange` | include/xyco/time/wheel.ccm:37-42 | seen from a position below 60^k, the first k levels hold exactly the ticks below 60^k |
| `Odometer.DigitOfValue` | include/xyco/time/wheel.ccm:19-23 | the cursors are the digits of the position they denote |
| `Odometer.ValueOfDigits` | include/xyco/time/wheel.ccm:19-23 | and a position's digits denote it |
| `WheelModel.TruncDivBounds` | src/time/wheel.cc:16-18 | the truncated count is at least q > 0 exactly when q whole milliseconds are left |
| `WheelModel.DueNeverRises` | src/time/wheel.cc:39-47 | as time moves on an event is never due later; with a whole-millisecond clock it is due exactly when it was, or at once |
| `WheelModel.Layout` | src/time/wheel.cc:31-36 | any stored event sits strictly ahead of its level's cursor (at or ahead on level 0); with a whole-millisecond clock in the slot of its due tick's digit, all digits above shared with the position |
| `WheelModel.HeldAfter` | src/time/wheel.cc:63-108 | when the position moves, an event's cell tells whether it is past (swept), at the cut, or rightly left in place; it stays within range in every case |
| `WheelModel.InsertKeeps` | src/time/wheel.cc:15-37 | inserting keeps the invariant, and the exact one with a whole-millisecond clock |
| `WheelModel.WalkKeeps` | src/time/wheel.cc:51-115 | so does walking, sweeps, cascade and re-insertion included |
| `WheelModel.Cascaded` | src/time/wheel.cc:92-108 | after both re-insertions the cursors denote P+S and the invariant holds |
| `WheelModel.ExpireKeeps` | src/time/wheel.cc:39-47 | every expire keeps the invariant, whatever the clock, and also when it throws; `now_` never goes back |
| `WheelModel.InsertConserves` | src/time/wheel.cc:36 | inserting adds the event once |
| `WheelModel.WalkConserves` | src/time/wheel.cc:63-114 | what a walk emits and what it leaves is what was stored, as multisets |
| `WheelModel.GoneIsDue` | src/time/wheel.cc:63-90 | whatever a sweep emits was due before the new position |
| `WheelModel.CurrentSlotIsDue` | src/time/wheel.cc:110-114 | whatever lies at the level-0 cursor has no whole millisecond left |
| `WheelModel.NeverEarly` | src/time/wheel.cc:51-115 | no walk emits an event with a full millisecond or more left, under any clock |
| `WheelRuns.EmittedIsPast` | src/time/wheel.cc:51-115 | with a whole-millisecond clock all that is emitted has reached its deadline |
| `WheelRuns.LeftIsPending` | src/time/wheel.cc:51-115 | and all that is left has not |
| `WheelRuns.EmissionOrder` | src/time/wheel.cc:63-114 | within one walk events of different slots are emitted in deadline order, across full sweeps, partial sweep and cascaded group |
| `WheelRuns.ExpireOrder` | src/time/wheel.cc:39-47 | the same for one expire of a wheel in step with a whole-millisecond clock |
| `WheelRuns.Apply` | src/time/wheel.cc:15-47 | every call, failing ones included, keeps the invariant and the unit and never moves `now_` back |
| `WheelRuns.ApplyConserves` | src/time/wheel.cc:15-115 | every call conserves the events |
| `WheelRuns.RunConserves` | src/time/wheel.cc:15-115 | over every run and every clock (stalled, backwards, out of range, overflowing the int step count) each accepted event is stored or was emitted, as often as it was accepted |
| `WheelRuns.RunNeverEarly` | src/time/wheel.cc:39-115 | no call of any run, under any clock, emits an event with a full millisecond or more left |
| `WheelRuns.SplitIsUnique` | src/time/wheel.cc:39-47 | any split of the pending timers at the clock is the flat collection's split |
| `WheelRuns.Refinement` | src/time/wheel.cc:15-115 | with a whole-millisecond clock and all times within range, every call of every run succeeds and emits exactly what a flat collection of deadlines would: everything with deadline at or before now when the clock advanced, nothing otherwise |
| `WheelRuns.SyncedAlong` | src/time/wheel.cc:39-47 | along such a run the position is the number of milliseconds since the start and placement is exact |
| `WheelRuns.InsertRange` | src/time/wheel.cc:22-28 | insertion throws if and only if the deadline is 60^5 ms or more after the wheel's start |
| `WheelRuns.ExpireRange` | src/time/wheel.cc:42-60 | expiring throws if and only if the advance in milliseconds, cut to a 32-bit int, is not negative and takes the position to 60^5; as long as it fits an int, if and only if the clock is 60^5 ms or more after the wheel's start |
| `WheelRuns.RangeIsNeeded` | src/time/wheel.cc:42-60 | for every advance beyond the range, however long: the flat collection hands out every timer, the wheel exactly the cells before the ones that survive (none if it throws), and the two agree if and only if no surviving cell holds a timer |
| `WheelRuns.WalkOverdue` | src/time/wheel.cc:51-115 | a walk over timers that are all overdue emits exactly the slots up to the second one re-inserted, in order |
| `WheelRuns.BeyondTheRange` | src/time/wheel.cc:42-60 | a wheel with one timer due at 5 ms throws at 60^5 ms, and at 2^32 ms walks no step and keeps the timer |
| `WheelEmission.InsertStores` | src/time/wheel.cc:15-37 | under any clock, with t whole milliseconds left: slot s of level k gains the event at its end exactly when P+t and P agree above k, s is P+t's digit at k and s is ahead of the cursor, and no other slot changes; it throws, changing nothing, if and only if P+t is 60^5 or more |
| `WheelEmission.WalkEmits` | src/time/wheel.cc:51-115 | under any clock a walk emits every slot before the cell of the new position, in order, then of the cut slot and of the next one on its level exactly the events with less than a millisecond left; the rest stays |
| `WheelEmission.ExpireEmits` | src/time/wheel.cc:39-47 | under any clock an expire does nothing unless the clock moved forward; otherwise it advances the position by the whole milliseconds since the last time, n with n ms <= advance < n+1 ms (cut to 32 bits), sets `now_` to the clock and emits exactly that; or throws exactly out of range, changing only `now_` |
| `WheelEmission.RunEmits` | src/time/wheel.cc:39-115 | the same at every expire of every run |
| `WheelEmission.RunStores` | src/time/wheel.cc:15-37 | and the placement at every insertion of every run |
| `WheelEmission.NearCount` | src/time/wheel.cc:94-114 | the re-inserted events that come out at once are those with less than a millisecond left, as often as they were stored |
| `WheelLateness.ExpireKeepsPunctual` | src/time/wheel.cc:39-115 | under any clock an advance keeps every stored event at a tick not after its deadline, counted from the wheel's start, and adds to the lag exactly the fraction it leaves behind |
| `WheelLateness.RunNotLate` | src/time/wheel.cc:39-115 | over every run and under any clock, whatever an advance leaves in the wheel has at least a millisecond to go, less the lag of the position behind the clock |
| `WheelLateness.LagIsBounded` | src/time/wheel.cc:42-45 | over every run without throw or 32-bit overflow that lag is less than a millisecond per expire |
| `WheelRuns.FreshIsSynced` | src/time/wheel.cc:49 | a new wheel is in step with the clock and empty |
| `TimingWheel.CarryStep` | src/time/wheel.cc:22-28 | one carry iteration turns the quotients' difference at level k into that at level k+1 |
| `TimingWheel.TimingWheel.constructor` | src/time/wheel.cc:49 | all slots empty, all cursors zero, `now_` the clock |
| `TimingWheel.TimingWheel.Carry` | src/time/wheel.cc:52-61 | the carry loop finds the highest level that changes and every level's steps; it fails if and only if position plus steps reaches 60^5 |
| `TimingWheel.TimingWheel.InsertEvent` | src/time/wheel.cc:15-37 | stores at the cell of P+T (level 0's cursor slot when T <= 0), or throws if and only if that is out of range, changing nothing |
| `TimingWheel.TimingWheel.SweepLevel` | src/time/wheel.cc:63-72 | 60 slots from the cursor round come out in slot order and the level is empty |
| `TimingWheel.TimingWheel.AdvanceCursor` | src/time/wheel.cc:73-78 | the level's cursor becomes the new position's digit |
| `TimingWheel.TimingWheel.SweepTop` | src/time/wheel.cc:81-90 | the partial sweep empties the slots it passes, in order, and carries the cursor along |
| `TimingWheel.TimingWheel.Sweep` | src/time/wheel.cc:63-90 | both loops: the cursors denote the new position and everything before its cell came out, in cell order |
| `TimingWheel.TimingWheel.StoreAgain` | src/time/wheel.cc:94-99 | a slot's events are taken out and each inserted again |
| `TimingWheel.TimingWheel.Cascade` | src/time/wheel.cc:94-108 | the cursor slot and the next one on its level, wrapping round |
| `TimingWheel.TimingWheel.TakeCurrent` | src/time/wheel.cc:110-114 | the level-0 cursor slot is emitted and cleared |
| `TimingWheel.TimingWheel.Walk` | src/time/wheel.cc:51-115 | the loops compute the walk stated through cells, or throw exactly out of range, leaving the slots alone |
| `TimingWheel.TimingWheel.Expire` | src/time/wheel.cc:39-47 | does nothing unless the clock moved forward; otherwise sets `now_` and walks the truncated, 32-bit step count |
| `RunQueue.RunQueue.Register` | src/runtime/core.cc:96-99 | the entry becomes the youngest |
| `RunQueue.RunQueue.Take` | src/runtime/core.cc:70-73 | the oldest entry leaves |
| `RunQueue.RunQueue.Wake` | src/runtime/core.cc:103-113 | the events' futures are queued in the events' order |
| `RunQueue.FirstInFirstOut` | src/runtime/core.cc:64-79 | with any number of workers the entries that entered are those registered, in order; they leave in that order, and each one taken is being polled or was, as often as it was taken; suspending drops none |
| `Mpsc.Channel.Send` | include/xyco/sync/mpsc.ccm:60-86 | one send poll: value handed back, pushed (scheduling the receive last parked), or parked |
| `Mpsc.Channel.Receive` | include/xyco/sync/mpsc.ccm:139-167 | one receive poll: oldest value (waking the oldest parked sender), end of stream, or parked |
| `Mpsc.Channel.CloseBySender` | include/xyco/sync/mpsc.ccm:107-117 | the last owner besides a live receiver closes the sending side |
| `Mpsc.Channel.CloseByReceiver` | include/xyco/sync/mpsc.ccm:187-191 | the system's closing step; from then on every send poll gets its value back, wakes nobody and changes nothing |
| `Mpsc.RunKeeps` | include/xyco/sync/mpsc.ccm:60-167 | the invariant behind the following, kept by every step of every run, polls of completed receives included |
| `Mpsc.ParkedMeansFull` | include/xyco/sync/mpsc.ccm:66-85 | while a sender is parked and the receiver lives, buffered values plus woken senders reach the capacity; each unfinished send is in exactly one of parked queue and run queue |
| `Mpsc.NoStrandedSender` | include/xyco/sync/mpsc.ccm:141-166 | whenever a receive waits on an empty buffer beside parked senders, a woken sender is still scheduled |
| `Mpsc.PendingReceiveIsWoken` | include/xyco/sync/mpsc.ccm:71-77 | a receive that waits beside buffered values is scheduled, in every run in which each push while a receive waits finds the receiver slot on it or finds it scheduled already |
| `Mpsc.NotifiedStep` | include/xyco/sync/mpsc.ccm:71-77 | a step keeps that so if and only if its push, if any, meets that condition |
| `Mpsc.NotifiedIffReach` | include/xyco/sync/mpsc.ccm:71-77 | over every run it is so at every point if and only if every push met it |
| `Mpsc.HarmlessReaches` | include/xyco/sync/mpsc.ccm:162-165 | every push meets it in runs in which no completed receive is polled on an open empty channel while another waits |
| `Mpsc.AimedStep` | include/xyco/sync/mpsc.ccm:162-165 | a step keeps the receiver slot on the receive that waits if and only if it is not the poll of a completed receive on an open empty channel |
| `Mpsc.AimedIffHarmless` | include/xyco/sync/mpsc.ccm:162-165 | the same for whole runs |
| `Mpsc.LiveStep` | include/xyco/sync/mpsc.ccm:71-77 | a step keeps every run-queue entry an unfinished send or the one receive that waits, at most once, if and only if a push finds the receiver slot empty or on that receive, not yet scheduled |
| `Mpsc.LiveIffQuiet` | src/runtime/core.cc:70-76 | the same for whole runs |
| `Mpsc.QuietIsHarmless` | src/runtime/core.cc:70-76 | in such a run no completed receive is polled, the receiver slot stays right and no value is lost |
| `Mpsc.LostIffLoses` | include/xyco/sync/mpsc.ccm:141-157 | over every run, every value popped went to a caller if and only if no completed receive was polled on a non-empty buffer |
| `Mpsc.ForgetStep` | include/xyco/sync/mpsc.ccm:107-117 | destroying a sender leaves a waiting receive unscheduled with the stream ended if and only if it was the last sender, the buffer is empty and the receive is not in the run queue |
| `Mpsc.ForgottenForever` | include/xyco/sync/mpsc.ccm:107-117 | and that receive stays so to the end of every run |
| `Mpsc.ForgottenIsReachable` | include/xyco/sync/mpsc.ccm:107-117 | a run that gets there |
| `Mpsc.ScheduledReceiveEnds` | include/xyco/sync/mpsc.ccm:158-160 | a receive that was scheduled by then gets the end of the stream when it is polled |
| `Mpsc.EndOfStream` | include/xyco/sync/mpsc.ccm:107-161 | a receive yields nothing only when every sender is gone, no send is unfinished and every accepted value was popped in order |
| `Mpsc.StreamEnds` | include/xyco/sync/mpsc.ccm:107-161 | once every sender is gone a receive on an empty buffer does yield nothing |
| `Mpsc.NoSendAfterClose` | include/xyco/sync/mpsc.ccm:62-64 | once the receiver is gone no value is accepted any more |
| `Mpsc.RejectedIsClosed` | include/xyco/sync/mpsc.ccm:62-64 | and before that none is handed back |
| `Mpsc.SendsAreAccounted` | include/xyco/sync/mpsc.ccm:60-86 | over every run each send that was started is unfinished, accepted or handed back, exactly one of these, and no other is any |
| `Mpsc.HandlesAreKept` | include/xyco/sync/mpsc.ccm:96-117 | over every run the live sender handles are the first one and the copies, less those destroyed |
| `Mpsc.PushedIsGiven` | include/xyco/sync/mpsc.ccm:55-69 | over every run the i-th value pushed is the one its sender was given, however often it was parked in between, and every unfinished send still holds its own |
| `Mpsc.PolledInOrder` | src/runtime/core.cc:70-79 | over every run futures are polled again in the order they were scheduled: the receive in the slot at each push, the longest parked sender at each pop |
| `Mpsc.ChannelOrder` | include/xyco/sync/mpsc.ccm:62-157 | values pushed are values popped then the buffer, never beyond capacity; senders are woken in the order they parked; no send is both accepted and handed back |
| `Mpsc.StaleEntryIsReachable` | include/xyco/sync/mpsc.ccm:72-75 | a run after which a completed receive is still in the run queue |
| `Mpsc.StalePollLoses` | src/runtime/core.cc:70-76 | a run in which polling it takes a value that no caller gets |
| `Mpsc.StalePollMisdirects` | include/xyco/sync/mpsc.ccm:162-165 | a run in which polling it redirects the next wake-up, leaving a receive waiting unscheduled beside a buffered value |
| `MpscSections.SectionOrder` | include/xyco/sync/mpsc.ccm:62-157 | in every interleaving of the locked sections values leave in the order they entered, the buffer stays within capacity, and exactly the accepted sends pushed, each once |
| `MpscSections.ValuesTravel` | include/xyco/sync/mpsc.ccm:62-157 | in every interleaving the i-th value pushed is the one its sender was given, the i-th value popped is what the poll that took it hands to its caller, no other poll hands on a value and none twice, and a value handed back is the one the send was given |
| `MpscSections.WokenInOrder` | include/xyco/sync/mpsc.ccm:147-154 | in every interleaving senders are woken in the order they parked |
| `MpscSections.NothingDropped` | src/runtime/core.cc:70-79 | in every interleaving what was scheduled (at a push the receive in the slot, at a wake-up the longest parked sender) was taken by a worker or is still queued, as often as it was scheduled |
| `MpscSections.TakenIsPolled` | src/runtime/core.cc:70-76 | a worker that takes an entry polls it: a parked send from its start with its own value, a receive, completed or not, by a new poll |
| `MpscSections.ReturnedIffClosed` | include/xyco/sync/mpsc.ccm:62-64 | in every interleaving a send's value is handed back if and only if the send found the receiver closed |
| `MpscSections.NothingIffEnded` | include/xyco/sync/mpsc.ccm:158-160 | in every interleaving a receive yields nothing if and only if it found the buffer empty and the senders gone |
| `MpscSections.ParkStep` | include/xyco/sync/mpsc.ccm:81-84 | parking lowers by exactly one the sum of buffered values, sends at work, receives about to wake a sender and woken senders scheduled |
| `MpscSections.CoveredStep` | include/xyco/sync/mpsc.ccm:62-167 | with the receiver open, every section keeps that sum at least the capacity while a sender is parked; parking does if and only if the sum without the parking sender is at least the capacity |
| `MpscSections.CoveredIffBacked` | include/xyco/sync/mpsc.ccm:62-167 | over every interleaving with the receiver open: the bound holds throughout if and only if every sender that parked met that condition |
| `MpscSections.StrandedStep` | include/xyco/sync/mpsc.ccm:79-85 | a section strands a parked sender (no value, no send at work, no wake-up under way) if and only if it parks the only activity left |
| `MpscSections.StrandedIffStrands` | include/xyco/sync/mpsc.ccm:62-167 | over every interleaving with the receiver open: no sender is ever stranded if and only if no section was such |
| `MpscSections.NoneStranded` | include/xyco/sync/mpsc.ccm:66-85 | if every sender that parks finds the buffer still full, then whenever a sender is parked a value is buffered, a send is at work, a receive is about to wake a sender or a woken sender is scheduled |
| `MpscSections.AtOnceIsFull` | include/xyco/sync/mpsc.ccm:66-85 | runs in which parking directly follows the failed push meet that condition |
| `MpscSections.StrandedSender` | include/xyco/sync/mpsc.ccm:79-85 | a run of locked sections that leaves a sender and a receive waiting for each other with nothing scheduled |
| `Join.JoinFuture.Spawn` | include/xyco/task/join.ccm:20-29 | the first poll spawns every branch in order and changes nothing else |
| `Join.JoinFuture.Store` | include/xyco/task/join.ccm:55-59 | the object takes the system's store step, keeping the invariant: the branch's outcome at its place and nothing else |
| `Join.JoinFuture.Check` | include/xyco/task/join.ccm:61-80 | the loop under the lock takes the system's check step and enters the run queue exactly when that step schedules the join |
| `Join.JoinFuture.Finish` | include/xyco/task/join.ccm:31-42 | the left-to-right loop gives the extraction below |
| `Join.ExtractMeaning` | include/xyco/task/join.ccm:31-42 | all values position by position, or the leftmost branch's exception |
| `Join.ScheduledOnce` | include/xyco/task/join.ccm:50-81 | in every interleaving of stores and checks the join is scheduled at most once, never before every result is stored, and exactly once when all branches are through |
| `Join.AnswerIsFixed` | include/xyco/task/join.ccm:31-81 | from then on the results no longer change, so any later poll yields the same |
| `Join.StoredIffProduced` | include/xyco/task/join.ccm:50-59 | in every run a branch's stored result is r if and only if the branch produced r |
| `Join.ThroughSchedules` | include/xyco/task/join.ccm:61-80 | once every branch went through its locked section the join was scheduled exactly once |
| `Join.JoinYields` | include/xyco/task/join.ccm:31-42 | any poll after scheduling yields the values the branches produced, in branch order, or the exception of the leftmost branch that threw |
| `Select.BranchShared.Spawn` | include/xyco/task/select.ccm:40-50 | the first poll spawns every branch in order |
| `Common.BranchesInOrder` | include/xyco/task/select.ccm:40-50 | which is: each branch once, in order |
| `Select.BranchShared.Complete` | include/xyco/task/select.ccm:99-120 | the object takes the system's completion step, keeping the invariant, and enters the run queue exactly when that step schedules the select future |
| `Select.Gather` | include/xyco/task/select.ccm:52-71 | the left-to-right loop gives the collection below |
| `Select.BranchShared.Finish` | include/xyco/task/select.ccm:52-71 | a second poll of a scheduled select future takes the system's step and its answer holds an exception or at least one value |
| `Select.BranchShared.Destroy` | include/xyco/task/select.ccm:76-80 | the destructor takes the system's step, keeping the invariant for branches that complete later |
| `Select.CollectMeaning` | include/xyco/task/select.ccm:52-71 | values and gaps branch by branch with exactly the unfinished branches cancelled, or the leftmost stored exception with exactly the unfinished branches to its left cancelled |
| `Select.ScheduledOnce` | include/xyco/task/select.ccm:97-120 | for any number of branches and any order: scheduled at most once, exactly once if a branch finished while it lived, and the second poll gives an exception or at least one value |
| `Select.AnswerIsFixed` | include/xyco/task/select.ccm:114-119 | late completions neither change the answer nor schedule it again |
| `Select.StoredIffProduced` | include/xyco/task/select.ccm:97-112 | in every run a branch's stored result is r if and only if the branch completed with r |
| `Select.SelectYields` | include/xyco/task/select.ccm:52-71 | in every run the answer is what the branches had produced when the second poll ran: values in branch order and a cancelled gap for each that had not, or the exception of the leftmost that had thrown with those to its left that had not cancelled |
| `Select.CompletionSchedules` | include/xyco/task/select.ccm:114-119 | a branch that completes before the select future is destroyed gets it scheduled, once and for all |
| `Select.DroppedIsSilent` | include/xyco/task/select.ccm:105-108 | in every run a branch ends cancelled without a result if and only if it ended with CancelException, and stays so |
| `CancelChain.Future.Cancel` | include/xyco/runtime/future.ccm:236-241 | marks every future down the chain and touches nothing else |
| `CancelChain.Future.Await` | include/xyco/runtime/future.ccm:113-117 | the objects' pointers, which agreed with the frames, agree with them after the system's await step |
| `CancelChain.Future.Finish` | include/xyco/runtime/future.ccm:136-162 | likewise for the end of an awaited frame; what the awaiter gets is what the system's step says: a stored exception first, then cancellation, then the value |
| `CancelChain.Future.CancelFrame` | src/runtime/future.cc:58-63 | likewise for a cancel: walking the objects' pointers sets exactly the flags of the system's step |
| `CancelChain.AnyRunKeeps` | include/xyco/runtime/future.ccm:113-162 | in any run every pointer is right where there is one, awaits go from earlier to later started frames, and every await handed on what it should |
| `CancelChain.RunKeeps` | include/xyco/runtime/future.ccm:113-162 | besides, no pointer is missing as long as completed futures are awaited again only under the condition of `CancelChain.AwaitedAgain` |
| `CancelChain.PointersAgree` | src/runtime/future.cc:37-41 | in every such run `waited_` and `waiting_` are mutually inverse on live awaits, unless the future was dropped |
| `CancelChain.AwaitYields` | include/xyco/runtime/future.ccm:136-162 | in any run an await hands on the awaited frame's exception, else its value, or cancellation only if that frame was cancelled |
| `CancelChain.History` | include/xyco/runtime/future.ccm:113-162 | in any run a frame is done with an outcome, has an awaiter or was dropped if and only if it completed with it, was awaited by it or was spawned |
| `CancelChain.AwaitAnswers` | include/xyco/runtime/future.ccm:136-162 | in any run, when a frame completes its awaiter gets its exception, or cancellation if the frame was marked by then, or its value, and keeps that; nobody gets anything of a frame that was not awaited |
| `CancelChain.FramesMove` | include/xyco/runtime/future.ccm:113-162 | in any run an await suspends exactly its frame until the callee completes, a leaf until it is ready, and starts exactly the callee |
| `CancelChain.ChainAcyclic` | include/xyco/runtime/future.ccm:113-123 | a chain of awaits goes strictly from earlier to later started frames |
| `CancelChain.CancelReaches` | src/runtime/future.cc:58-63 | in any state of any run cancel terminates: its walk ends at a frame without a pointer, never at the model's bound, and it marks exactly the frames of the walk |
| `CancelChain.CancelMarks` | include/xyco/runtime/future.ccm:236-241 | in any run a cancel marks a prefix of the chain from its target to the innermost async function, and the whole chain if and only if no frame above the innermost lacks its pointer |
| `CancelChain.PointerMissing` | include/xyco/runtime/future.ccm:136-139 | in any run a suspended frame lacks its pointer if and only if, during this very await, a future it had awaited before was awaited again |
| `CancelChain.NoValueAfterCancel` | include/xyco/runtime/future.ccm:143-161 | in any run whoever is suspended on a marked frame never gets a value from that await |
| `CancelChain.CancelThrows` | include/xyco/runtime/future.ccm:143-161 | in any run after a cancel every frame of the chain, down to the first without a pointer, gets an exception from the await it was suspended on |
| `CancelChain.AwaitedAgain` | include/xyco/runtime/future.ccm:136-139 | awaiting a completed future again keeps the pointers right if and only if the frame that awaited it first is not suspended on an async function |
| `CancelChain.RightIffUndisturbed` | include/xyco/runtime/future.ccm:136-139 | over any run at all: the pointers are right throughout if and only if every such await met that condition |
| `CancelChain.CancelMissesCallee` | include/xyco/runtime/future.ccm:236-241 | a run without it in which a cancel marks a frame but not the one it is suspended on |
| `BlockingRegistry.Registry.LeastLoaded` | src/task/registry.cc:45-48 | the first worker with the fewest tasks |
| `BlockingRegistry.Registry.Register` | src/task/registry.cc:72-80 | the system's append and spawn steps, at a least loaded worker, with every event still accounted for |
| `BlockingRegistry.Registry.TakeTask` | src/task/registry.cc:26-28 | the system's step: the worker's oldest task |
| `BlockingRegistry.Registry.RunTask` | src/task/registry.cc:30 | the system's step: the task marks its event |
| `BlockingRegistry.Registry.Split` | src/task/registry.cc:98-107 | the two passes select the marked and the unmarked events, in order |
| `BlockingRegistry.Registry.Select` | src/task/registry.cc:92-110 | the system's step: what comes out is exactly the waiting events whose closure ran, each once and none that came out before |
| `BlockingRegistry.PickSplits` | src/task/registry.cc:98-107 | the two selections share every event out between them |
| `BlockingRegistry.EachEventOnce` | src/task/registry.cc:21-36 | in every run with any number of workers an event's closure ran or is in exactly one place, the event is waiting or delivered, never twice, and delivered only after its closure ran |
| `BlockingRegistry.SelectDelivers` | src/task/registry.cc:92-110 | after a selection every registered event whose closure ran was delivered exactly once |
| `BlockingRegistry.TasksInOrder` | src/task/registry.cc:26-31 | in every run each worker runs its tasks in the order they were queued there |
| `BlockingRegistry.EventsInOrder` | src/task/registry.cc:92-110 | in every run the waiting events are the registered ones not yet delivered, in registration order, and each selection hands out the marked ones in that order |
| `BlockingRegistry.PickAppend` | src/task/registry.cc:98-107 | a later event is selected after the earlier ones |
| `Sleep.SleepFuture.Poll` | include/xyco/time/sleep.ccm:25-37 | first poll: the event with deadline now plus duration is registered, Pending (or the wheel threw); second poll: Ready, wheel untouched |
| `Sleep.SleepsAreTimely` | include/xyco/time/sleep.ccm:25-37 | over every run and every clock, backwards ones included, each sleep is in exactly one of wheel, run queue and ready, and at the clock's reading when it left the wheel less than a millisecond was left |
| `Sleep.PhasesAdvance` | src/runtime/core.cc:103-113 | a sleep only moves from waiting to woken to ready, so it is woken at most once, and keeps its deadline and wake time; a sleep whose registration threw never starts |
| `Sleep.RequestIsKept` | include/xyco/time/sleep.ccm:27-30 | in every run a sleep polled first at some clock reading for some duration keeps exactly these, or its registration threw |
| `Sleep.RequestOf` | include/xyco/time/sleep.ccm:27-30 | and every sleep there is was so requested |
| `Sleep.PolledInOrder` | src/runtime/core.cc:103-113 | in every run sleeps are polled again in the order they were woken, those of one drive in the order the wheel emitted them |
| `Sleep.ReadyIffPolled` | include/xyco/time/sleep.ccm:25-37 | and exactly those polled again are ready |
| `Sleep.ReadyOnTime` | include/xyco/time/sleep.ccm:25-37 | with a whole-millisecond clock a sleep is woken only when the clock shows its first poll's reading plus the duration asked for, or later; if the clock never goes back, it is ready only then |
| `Sleep.DriveWakesAllDue` | src/time/wheel.cc:39-47 | one drive after the clock moved leaves no due sleep waiting, for a wheel in step |
| `Sleep.NoSleepOverdue` | src/time/registry.cc:37-44 | at every drive of every run within range, once the clock moved, every sleep whose first poll plus duration asked for has come is woken |
| `Timeout.TimeoutMeaning` | include/xyco/time/timeout.ccm:28-41 | the case split always has an answer: the value only if the future returned it and the sleep was cancelled, expiry only if the sleep was ready, an exception only if the future threw it or the sleep could not be registered |
| `Timeout.TimeoutYields` | include/xyco/time/timeout.ccm:17-41 | in every run the answer is what a branch did: the value the future came to, expiry after the sleep's branch resumed, an exception the future or the sleep's registration threw |
| `Timeout.CancelledIsSilent` | include/xyco/time/timeout.ccm:17-41 | likewise for the two branches of a timeout |
| `Timeout.SleepRun` | include/xyco/time/timeout.ccm:17-21 | seen from the sleep, a run of the timeout is a run of the sleep system whose steps are steps of the run |
| `Timeout.ExpiredOnTime` | include/xyco/time/timeout.ccm:28-41 | with a whole-millisecond clock expiry is reported only if the clock showed the reading at the sleep's first poll plus its duration when the sleep was woken; if the clock never goes back, only at or after that |
| `Streams.WriteMeaning` | include/xyco/io/write.ccm:60-71 | the bytes offered before the first lasting error decide: that many are taken, up to the size; the end is success if they suffice, that error if not, and waiting if there is none |
| `Streams.Writer.Write` | include/xyco/io/write.ccm:61-64 | the transport takes a prefix of what is offered or reports an error |
| `Streams.Writer.WriteAll` | include/xyco/io/write.ccm:55-72 | for every chunking the sink gets as many bytes as are offered before the first lasting error, at most the buffer; the call succeeds if and only if that is the whole buffer, fails with that error if and only if it is not and there is one, and waits otherwise |
| `Streams.TransientErrorsAreRetried` | include/xyco/io/write.ccm:65-70 | transient errors do not change what is written |
| `Streams.DrainedMeaning` | include/xyco/io/read.ccm:56-59 | a stream is read to its end if and only if no read fails, or the successful reads before the first failure, but for the one that finds the end, have room for all bytes left |
| `Streams.DrainedBefore` | include/xyco/io/read.ccm:56-59 | in particular if more reads succeed before the first failure than bytes are left |
| `Streams.Source.Read` | include/xyco/io/read.ccm:31-37 | what a reader delivers: some next bytes, none exactly at the end; or an error, with nothing changed |
| `Streams.BufferReader.constructor` | include/xyco/io/buffer_reader.ccm:51-55 | nothing buffered, the whole stream unread |
| `Streams.BufferReader.FillBuffer` | include/xyco/io/buffer_reader.ccm:35-45 | reads anew only when used up, loses nothing, is empty only at the end of the stream, and passes on the error of a failed read |
| `Streams.BufferReader.Consume` | include/xyco/io/buffer_reader.ccm:47-49 | advances by the amount modulo 2^16, at most to the end of the buffer |
| `Streams.BufferReader.TakeChunk` | include/xyco/io/read.ccm:59-66 | one round takes a prefix of what is unread, empty exactly at the end of the stream or on a failed read |
| `Streams.BufferReader.ReadToEnd` | include/xyco/io/read.ccm:53-68 | for every chunking the content is everything unread if and only if the stream ends before a read fails; otherwise a failed result is dereferenced |
| `Streams.RoundTrip` | include/xyco/io/read.ccm:53-68 | what `write_all` wrote and `read_to_end` reads back is the buffer, or a proper prefix of it when writing did not complete, if and only if the stream ends before a read fails |

## Left out

- The five Level objects are the five rows of one array, and the loop shared by insertion and walking is one method; the slots, cursors and order of steps are the source's.
- Events and futures are identified by numbers instead of pointers; lifetime of objects, destructors racing with branches, C++ memory ordering, worker and pool shutdown, and the start-up barrier are not modelled.
- Mpsc.NoStrandedSender: holds for whole polls as steps, with the receiver alive; for single locked sections see `MpscSections.CoveredIffBacked`.
- Mpsc.PendingReceiveIsWoken: one receive at a time, as the channel has one receiver slot; without its condition it is false, as `Mpsc.StalePollMisdirects` shows. A polled receive that already completed is still a valid object in the model.
- Mpsc.EndOfStream: handles are copied, move-constructed and destroyed, each in one step and not while one of their futures is unfinished; the assignment operators drop a handle without closing it.
- MpscSections.CoveredIffBacked: while the receiver is open, as is `MpscSections.StrandedIffStrands`; once it is closed the code wakes no parked sender.
- CancelChain.RunKeeps: for the runs of `CancelChain.RightIffUndisturbed`, which says exactly which these are; what holds in any run is in `CancelChain.AnyRunKeeps`.
- `BufferReader::read` on a partly consumed buffer and `read_until` without a delimiter have no clean stream property.
- BlockingRegistry.EachEventOnce: a worker holds the registry lock while it runs closures and picks the least loaded worker from unlocked sizes; the step system allows every interleaving and every choice of worker.
- Local run queues and `wake_local`: the same code as the global queue and `wake`.
- epoll and io_uring registries, sockets, files, libc wrappers, open-option tables: kernel behaviour or small finite tables.
- The `oneshot` channel: a small finite-state version of the mpsc channel.
- Logging, formatters, panics, result macros, examples, benchmarks and build files.
