# A model of the duan coroutine runtime

This project models five parts of the `duan_src` library and proves properties of them:

- **the event table** of `IOManager`: per-descriptor contexts with READ and WRITE slots and event bits, the
  table that leads to them, the kernel's interest set and the pending counter;
- **timers**: a set ordered by deadline and address, with cancel, refresh, reset, recurrence, clock
  rollover and the coalesced "front changed" notification;
- **the scheduler**: any number of workers on one queue, pinning, callback fibers, idle fibers, shutdown;
- **fibers**: the state machine, the thread-local current fiber, and where control goes;
- **the log pattern parser** `LogFormatter::init`.

Each part has a module on values, which says what an operation does to a state, a module about whole
runs, and a module of classes whose methods update fields in place with the loops and branches of the
code; every such method is tied to the operation on values it performs. A failed `DUAN_ASSERT` is an
outcome that carries its line, so "the assertion holds" is a statement that this outcome does not occur.

Files: `LogPattern`, `LogItems`, `LogFormatter` (parser); `TimerModel`, `TimerRuns`, `TimerManager`, `IdleWait`
(timers and the sleep of `idle`); `EventTable`, `EventRuns`, `EventCounter`, `IoManager` (event table);
`FiberModel`, `FiberHistory`, `Fiber`, `FiberHandOff` (fibers); `SchedulerModel`, `SchedulerHistory`, `SchedulerRuns`,
`SchedulerCounts`, `SchedulerOrder`, `CallbackFibers`, `FiberLedger`, `Scheduler` (scheduler); `IoStopping`, `StopProtocol`,
`StopExamples` (when an `IOManager` stops); `Common`. `dafny verify dfyconfig.toml` checks everything.

Conventions of the model. Heap addresses are distinct numbers. Clock readings are parameters, 64-bit
values that may go back; sums and differences of times wrap as `uint64_t` does. An `FdContext` has an
identity of its own: the table holds identities, the kernel keeps for each descriptor a mask and the identity
in `data.ptr`, and a context that a resize cuts off the table lives on behind it. The kernel follows the rules
of `epoll_ctl(2)`, and any call may fail. Each lock region is one step; `EventCounter` and `FiberHandOff` split the regions that are not atomic into single writes.

## Where the code does not do what it seems meant to do

The model keeps the code as written. For each of these there is a statement of exactly when a step or an
input fails, a complete run that fails, or both; and where a repair is modelled, a proof that it works:

- `log.cc:446-450` does not skip the second `%` of `%%`, contrary to the comment at line 435
  (`LogPattern.RoundTripIff`: what is printed reads back exactly when no literal contains `%`;
  `LogPattern.RepairedRoundTrip`: with the skip, always).
- `iomanager.cc:358-360` and `388-395`: an error or hang-up fires directions nobody registered and trips
  line 38 (`EventRuns.DispatchSpec`; with the mask it never does, and nothing else changes).
- `iomanager.cc:108-114`: the size is not looked at again after switching locks, so a late `addEvent` can cut
  the table. No registration is lost by it, because the dispatch loop goes through `data.ptr`
  (`EventRuns.ExactlyOnce`, over every run). But `delEvent`, `cancelEvent`, `cancelAll` and a further
  `addEvent` no longer find the registrations of a context that was cut off (`EventRuns.CutOffIff`,
  `EventRuns.LateResizeExample`); `EventRuns.ReachableIff` says which steps do that, and with the size looked
  at again none of them is an `addEvent` (`EventRuns.RecheckedAdd`).
- `iomanager.cc:183-184`: `delEvent` counts down before it clears the bit, so the counter can be below the
  number of bits (`EventCounter.CoversBitsIff`).
- `iomanager.cc:269`: the guard of `tickle` is inverted (`SchedulerCounts.TickleWakesIff`).
- `iomanager.cc:316`: the cast to `int` comes before the comparison (`IdleWait.TimeoutIff`,
  `IdleWait.ComparedFirstIff`).
- `timer.cc:149-158`: emptiness is not looked at again after switching locks (`TimerRuns.DereferenceIff`: line
  158 dereferences the end of the set exactly when it is empty by then and no rollover is detected; testing
  again never does).
- `timer.cc:55-68` and `171-176`: `refresh` and the re-insertion of recurring timers never notify. That loses a
  wake-up exactly when the flag is down and a new deadline lies before the minimum that the last
  `getNextTimer` saw (`TimerRuns.NothingEarlierIff`); it takes a clock that goes back or a deadline that wraps
  (`TimerRuns.NoLostWakeUp`, `TimerRuns.ClockSetBackExample`).
- `scheduler.cc:189` and `199` both count up for a fiber, only line 201 counts down
  (`SchedulerCounts.CountersAreExact`, `SchedulerCounts.FiberDispatchPreventsStop`).
- `scheduler.cc:198` is always true, so a finished fiber is resumed and stops at `fiber.cc:236`
  (`SchedulerRuns.TurnStopsIff`, `SchedulerRuns.FinishedFiberExample`).
- `scheduler.cc:201-204` and `220-222` count down before they re-enqueue a READY fiber, which `stopping()`
  overlooks in between (`CallbackFibers.YieldedIsOverlookedExample`).
- `scheduler.cc:211-227`: a stale handle of a callback fiber can make `Fiber::reset` fail, exactly when a worker
  takes a callback while another worker is inside the fiber it keeps (`CallbackFibers.ResetFailsIff`,
  `CallbackFibers.StaleHandleExample` with two workers). With one worker it never does: the fiber has no
  function left and ends in EXCEPT, which `reset` accepts.
- `iomanager.cc:278-281` reads timers, events and scheduler one after the other, and neither the callbacks that
  `idle` holds between lines 335 and 339 nor the READY fiber above are counted. Both let all workers leave with
  a timer set (`StopExamples.TornStopLosesTimerExample`, `StopExamples.JointStopLosesTimerExample`: a joint
  reading alone does not help). `StopProtocol.CarefulIff` is the exact condition on a step;
  `StopProtocol.JointCountedStopIsFinal` is a repair: count such work as active and read jointly.
- `fiber.cc:188-199`: the state is written before the context is saved, so a wake-up that comes while a
  fiber still executes lets two workers onto its stack (`FiberHandOff.OneTokenIff`: one owner stays one owner
  exactly when wake-ups are for parked fibers; `FiberHandOff.EarlyWakeSharesTheStack`).
- `fiber.cc:138-162`: a `swapIn` from inside a fiber loses the scheduling loop for good
  (`FiberModel.ConsistentIff`, `FiberModel.NestedSwapInLosesTheLoop`).

## Model

| member | source | states |
|---|---|---|
| LogPattern.LexAccounts | duan_src/log.cc:440-508 | the nested scan ends on every string; printing its pieces gives text of the pattern's length plus 16 for every error marker, and the pattern itself when there is none |
| LogPattern.LosslessIff | duan_src/log.cc:440-508 | the printed pieces equal the pattern if and only if no brace was left open, `%%` or not |
| LogPattern.ErrorIff | duan_src/log.cc:453-503 | an error is reported if and only if somewhere a directive's brace has no closing brace after it |
| LogPattern.ScanIsLossless | duan_src/log.cc:453-498 | a directive's name and format are exactly the stretch of pattern the scan moves over |
| LogPattern.LexPrinted | duan_src/log.cc:440-508 | parsing a printed well-formed item list gives back the list, whatever literal text is pending |
| LogPattern.RoundTripIff | duan_src/log.cc:435-508 | with `%` written as `%%`, as documented, a well-formed list reads back if and only if no literal contains `%` |
| LogPattern.EscapedPercentExample | duan_src/log.cc:446-450 | `%%` yields a percent sign and a directive with an empty name |
| LogPattern.RepairedRoundTrip | duan_src/log.cc:446-450 | skipping both characters of `%%`, every well-formed list reads back, percent signs included |
| LogItems.PatternShown | duan_src/log.cc:436-544 | if every brace closes and every name is one of the twelve letters, the items printed in order give the pattern again with at most empty braces missing, and exactly the pattern if and only if no directive has empty braces |
| LogItems.ItemsReadBack | duan_src/log.cc:436-544 | every list of items that a pattern can express, printed and built again, comes back with all its formats |
| LogItems.TwelveLetters | duan_src/log.cc:509-526 | the table holds exactly m p r c t n d f l T F N |
| LogFormatterCode.LogFormatter.constructor | duan_src/log.cc:422-425 | the error flag is up if and only if a brace does not close or a name is not in the table; the items show either; otherwise they show the pattern again as in PatternShown |
| LogFormatterCode.LogFormatter.ReadDirective | duan_src/log.cc:453-489 | the inner loop finds name, format and end of the directive that the reference scan finds, or its missing brace |
| LogFormatterCode.LogFormatter.Tokenise | duan_src/log.cc:440-508 | the outer loop produces the tokens of the reference lexer and raises the error flag exactly with its errors |
| LogFormatterCode.LogFormatter.Build | duan_src/log.cc:528-543 | one item per token in order; the error flag rises exactly when a directive is unknown |
| LogFormatterCode.LogFormatter.Init | duan_src/log.cc:436-544 | items and error flag after `init`, from the reference lexer's pieces |
| TimerModel.CompareIsStrictTotalOrder | duan_src/timer.cc:11-28 | the comparator is a strict total order on distinct timers, null handles included |
| TimerModel.ExpiredEndIsDue | duan_src/timer.cc:162-167 | `lower_bound` of a probe timer and the scan over equal deadlines select exactly the timers due by now, for every probe address |
| Common.WordsWrap | duan_src/timer.cc:30-36 | sums and differences of times are those of uint64_t |
| TimerModel.RolloverIff | duan_src/timer.cc:198-205 | a rollover is detected if and only if the clock was set back by more than 3600000 ms, or at all when it read less than that before |
| TimerModel.ListExpiredSpec | duan_src/timer.cc:145-182 | on such a reading every timer in the set fires, otherwise exactly those whose deadline has come, in set order; recurring ones are due again one period from now, the others lose their callback and leave |
| TimerModel.CollectedSpec | duan_src/timer.cc:155-182 | the same for the second lock region in whatever state it finds the set |
| TimerModel.ListExpiredValid | duan_src/timer.cc:171-181 | an expiry keeps the set sorted and "callback set if and only if in the set" |
| TimerModel.NothingLeftDueIff | duan_src/timer.cc:145-182 | afterwards nothing is due if and only if every recurring timer that fired has a positive period whose new deadline does not wrap |
| TimerModel.WaitIsExact | duan_src/timer.cc:126-143 | zero if and only if an expiry at the same instant fires something; otherwise the exact distance to the first deadline |
| TimerModel.NoWaitIff | duan_src/timer.cc:129-131 | the answer is all ones if and only if no timer is set (but for one at the last millisecond seen from time zero) |
| TimerModel.AddTimerValid | duan_src/timer.cc:105-110 | a new timer is in the set, which stays sorted and keeps all others |
| TimerModel.CancelValid | duan_src/timer.cc:43-53 | cancel succeeds if and only if the timer is in the set with a callback; exactly that timer leaves |
| TimerModel.LiveIsFound | duan_src/timer.cc:45-49 | the unchecked find in `cancel` has an element to erase |
| TimerModel.RekeyValid | duan_src/timer.cc:60-66 | erase, change the key, insert keeps the set sorted with the same members |
| TimerModel.RefreshValid | duan_src/timer.cc:55-68 | when refresh succeeds and the one deadline it changes |
| TimerModel.ResetValid | duan_src/timer.cc:70-95 | when reset succeeds, when it moves the timer, the new period and deadline, and the notification flag |
| TimerRuns.AnchorsAndNotifications | duan_src/timer.cc:184-196 | over every run deadline minus period is the time of the last anchor; since the last `getNextTimer` the notification fired once if an `addTimer` took the front and otherwise never |
| TimerRuns.ResetUnderflowIff | duan_src/timer.cc:89-92 | the subtraction does not underflow if and only if the deadline had not wrapped |
| TimerRuns.TimerFates | duan_src/timer.cc:43-182 | over every run a one-shot is in the set, emitted once or cancelled, exactly one of these; a recurring timer is in the set or cancelled; no emission after a successful cancel, none before its deadline without rollover, always with the original callback |
| TimerRuns.RecurrencesAreSpaced | duan_src/timer.cc:171-176 | without rollover and wrapping, two emissions of a timer not touched in between are at least its period apart |
| TimerRuns.NothingEarlierIff | duan_src/timer.cc:55-196 | for every operation, whatever the clock does: "while the flag is down no timer in the set is due before the minimum the last getNextTimer saw" survives if and only if the flag is up or no refreshed or re-inserted deadline lies before that minimum |
| TimerRuns.NothingPulledNothingLost | duan_src/timer.cc:126-196 | so it holds over every run of such operations |
| TimerRuns.NoLostWakeUp | duan_src/timer.cc:126-196 | in particular over every run with steady clock readings and no wrapping |
| TimerRuns.ClockSetBackExample | duan_src/timer.cc:55-68 | a clock set back by 100 ms lets `refresh` pull a timer before that minimum without a notification |
| TimerRuns.DereferenceIff | duan_src/timer.cc:149-182 | for every run between the two locks: line 158 dereferences the end if and only if the set is empty by then and no rollover is detected, which takes a cancel or an expiry in between; otherwise the second region is an expiry in that state; testing again never stops and is a whole `listExpiredCb` there |
| TimerRuns.EmptiedBetweenLocksExample | duan_src/timer.cc:149-158 | a complete run with a cancel between the locks that stops at line 158 |
| TimerRuns.StartIsFine | duan_src/timer.cc:97-99 | a new manager meets the conditions of all the results over runs |
| TimerManagerCode.Timer.constructor | duan_src/timer.cc:30-36 | first deadline and fields |
| TimerManagerCode.Timer.Cancel | duan_src/timer.cc:43-53 | does to the manager what the model's cancel does, without a notification |
| TimerManagerCode.Timer.Refresh | duan_src/timer.cc:55-68 | does to the manager what the model's refresh does, without a notification |
| TimerManagerCode.Timer.Reset | duan_src/timer.cc:70-95 | does what the model's reset does and notifies exactly when it says so |
| TimerManagerCode.TimerManager.AddTimer | duan_src/timer.cc:105-110 | a new timer object, published and inserted as in the model |
| TimerManagerCode.TimerManager.AddTimerLocked | duan_src/timer.cc:184-196 | insertion, flag and notification as in the model |
| TimerManagerCode.TimerManager.GetNextTimer | duan_src/timer.cc:126-143 | lowers the flag and returns the model's wait |
| TimerManagerCode.TimerManager.DetectClockRollover | duan_src/timer.cc:198-205 | the rollover test, with the subtraction wrapping, and the new previous time |
| TimerManagerCode.TimerManager.ExpireLocked | duan_src/timer.cc:155-181 | the second lock region in any state: stops at line 158 exactly when the model says so; else the callbacks are those of the timers the model fires, in that order, and the set becomes the model's |
| TimerManagerCode.TimerManager.ListExpiredCb | duan_src/timer.cc:145-182 | both regions with nobody in between |
| TimerManagerCode.TimerManager.ScanExpired | duan_src/timer.cc:163-166 | the iterator stops where the model's does |
| TimerManagerCode.TimerManager.FireExpired | duan_src/timer.cc:171-180 | the loop over expired timers collects every callback once and re-inserts the recurring ones |
| IdleWait.EpollTimeout | duan_src/iomanager.cc:306-331 | after any number of interruptions the timeout is the clamp of the original wait |
| IdleWait.TimeoutIff | duan_src/iomanager.cc:314-321 | the timeout is within 0 and 3000 if and only if the cast keeps the sign; up to 2^31 it is the smaller of wait and 3000; a proper one is never longer than the wait |
| IdleWait.ComparedFirstIff | duan_src/iomanager.cc:314-321 | compared before the cast, the timeout is the smaller of wait and 3000 for every wait; as written if and only if no clamping is needed or the cast keeps the comparison |
| IdleWait.FarTimerExamples | duan_src/iomanager.cc:316-321 | waits of 2^31 and 2^32 ms become a wait without end and a busy loop |
| IdleWait.NeverOversleeps | duan_src/iomanager.cc:300-331 | at every instant of a properly timed sleep no timer is due |
| EventTable.FireBothSpec | duan_src/iomanager.cc:251-258 | firing several directions stops at line 38 if and only if one is not registered; otherwise takes exactly those out, READ first |
| EventTable.RealEventsAre | duan_src/iomanager.cc:357-367 | an entry reports READ if and only if EPOLLIN, EPOLLERR or EPOLLHUP is in it, and WRITE likewise with EPOLLOUT |
| EventRuns.AddToSpec | duan_src/iomanager.cc:117-153 | addEvent on any context, attached or cut off: stops if and only if the direction is registered already, at line 121 and never at 141; succeeds if and only if the kernel call works and the kernel does not watch the descriptor for another context; bits, slots, interest set and counter stay in agreement |
| EventRuns.AddEventSpec | duan_src/iomanager.cc:102-154 | with nobody between size test and resize: the same through the table, which then has room for the descriptor; never stops at line 114 |
| EventRuns.AddLateSpec | duan_src/iomanager.cc:108-153 | as written a late addEvent gives the table one and a half times the descriptor's number of places, whatever it had, and there does what addEvent does on any context; it runs off the table only for descriptors 0 and 1 |
| EventRuns.DelFromSpec | duan_src/iomanager.cc:163-187 | delEvent on any context never stops; removes exactly the registration, delivers nothing, or changes nothing |
| EventRuns.CancelOnSpec | duan_src/iomanager.cc:197-221 | cancelEvent on any context never stops; removes exactly the registration and hands over its task, or changes nothing |
| EventRuns.CancelAllOnSpec | duan_src/iomanager.cc:231-260 | cancelAll on any context never stops, line 259 included; hands over everything registered, or changes nothing |
| EventRuns.DelEventSpec | duan_src/iomanager.cc:156-188 | the call succeeds if and only if the descriptor has a place in the table, the direction is registered there and the kernel call works; then exactly that registration is dropped, else nothing changes |
| EventRuns.CancelEventSpec | duan_src/iomanager.cc:190-222 | the same, and exactly that registration's task is handed over |
| EventRuns.CancelAllSpec | duan_src/iomanager.cc:224-261 | the call succeeds if and only if some direction is registered there and the kernel call works; then everything registered is handed over, READ first |
| EventRuns.DispatchSpec | duan_src/iomanager.cc:346-396 | for every report, errors included: as written stops at line 38 exactly when it comes to firing and a reported direction is not registered, masked never; otherwise hands over exactly what is registered and reported |
| EventRuns.RepairOnlyRemovesStops | duan_src/iomanager.cc:388-395 | where the code gets through, the masked form does the same |
| EventRuns.HangUpExample | duan_src/iomanager.cc:358-395 | a hang-up on a descriptor registered for reading stops the process |
| EventRuns.ExactlyOnce | duan_src/iomanager.cc:37-396 | over every run, late resizes and contexts cut off by them included, every registration is in its slot, delivered or dropped by delEvent, exactly once, and bits, slots, interest set and counter agree |
| EventRuns.ExactlyOnceFromTheStart | duan_src/iomanager.cc:37-396 | so for every run of a new manager, with nothing asked of it |
| EventRuns.StopsIff | duan_src/iomanager.cc:38-259 | which lock regions stop the process, when, and at which line; in particular no resize fails line 114, since a thread that resizes has found its descriptor beyond the table once and the table is never smaller than 32; no other assertion can fail |
| EventRuns.ReachableIff | duan_src/iomanager.cc:91-153 | a step keeps every context the kernel watches at its place in the table if and only if it is neither a resize below a watched descriptor nor an addEvent on a context cut off since its thread read the table |
| EventRuns.StaysReachable | duan_src/iomanager.cc:91-396 | so over every run of such steps the table leads to every context with a registration |
| EventRuns.CutOffIff | duan_src/iomanager.cc:102-261 | for a registered descriptor delEvent, cancelEvent and cancelAll find the registration, and addEvent gets a further one past the kernel, if and only if the table leads to the context; the dispatch loop delivers either way |
| EventRuns.RecheckedAdd | duan_src/iomanager.cc:108-114 | an addEvent that looks at the size again under the write lock does what addEvent does in the later state, and cuts nothing off |
| EventRuns.LateResizeExample | duan_src/iomanager.cc:104-114 | a complete run: descriptor 100 grows the table, a late addEvent for 40 cuts it to 60, delEvent does not find the registration of 100, and the next event on 100 delivers it |
| EventRuns.StartIsAccounted | duan_src/iomanager.cc:51-75 | a new manager agrees, has nothing registered, and the table leads to every context |
| EventCounter.CounterIsExact | duan_src/iomanager.cc:138-258 | under any interleaving of single writes the counter is bits plus additions and firings in flight minus deletions in flight |
| EventCounter.CounterFromTheStart | duan_src/iomanager.cc:138-258 | so for any threads from the empty table on |
| EventCounter.CoversBitsIff | duan_src/iomanager.cc:183-184 | never negative; at least the number of bits if and only if additions and firings in flight make up for deletions; equal at rest; zero if and only if every set bit is one being deleted and nothing else is in flight |
| EventCounter.ZeroWithBitSetExample | duan_src/iomanager.cc:183-184 | a run after which the counter is zero with a bit set |
| IoManagerCode.FdContext.ResetContext | duan_src/iomanager.cc:31-35 | empties the slot of one direction only |
| IoManagerCode.FdContext.TakeOut | duan_src/iomanager.cc:184-186 | the bits become the given ones and the slot of the direction is emptied |
| IoManagerCode.FdContext.Register | duan_src/iomanager.cc:139-151 | sets bit and slot, or stops at line 141 on a slot in use |
| IoManagerCode.FdContext.TriggerEvent | duan_src/iomanager.cc:37-49 | does to the context what the model's trigger does |
| IoManagerCode.IOManager.constructor | duan_src/iomanager.cc:51-75 | the initial table |
| IoManagerCode.IOManager.ContextResize | duan_src/iomanager.cc:91-100 | cuts the table, freeing nothing, or extends it by new contexts with their numbers |
| IoManagerCode.IOManager.Extend | duan_src/iomanager.cc:94-99 | the loop gives every new place a context object of its own |
| IoManagerCode.IOManager.EpollCtl | duan_src/iomanager.cc:128-136 | changes the interest set as the model's call does; -1 exactly if the call is illegal or fails |
| IoManagerCode.IOManager.AddEvent | duan_src/iomanager.cc:102-154 | does what the model's addEvent does, stop lines included |
| IoManagerCode.IOManager.AddLate | duan_src/iomanager.cc:110-153 | addEvent from its write lock on, in whatever state it finds the table, does what the model's late addEvent does |
| IoManagerCode.IOManager.AddTo | duan_src/iomanager.cc:117-153 | the part under the mutex of any context, attached or cut off, does what the model's does |
| IoManagerCode.IOManager.DelEvent | duan_src/iomanager.cc:156-188 | does what the model's delEvent does |
| IoManagerCode.IOManager.DelFrom | duan_src/iomanager.cc:163-187 | the same for the part under the mutex of any context |
| IoManagerCode.IOManager.CancelEvent | duan_src/iomanager.cc:190-222 | does what the model's cancelEvent does |
| IoManagerCode.IOManager.CancelOn | duan_src/iomanager.cc:197-221 | the same for the part under the mutex of any context |
| IoManagerCode.IOManager.CancelAll | duan_src/iomanager.cc:224-261 | does what the model's cancelAll does |
| IoManagerCode.IOManager.CancelAllOn | duan_src/iomanager.cc:231-260 | the same for the part under the mutex of any context |
| IoManagerCode.IOManager.FireRegistered | duan_src/iomanager.cc:251-258 | two tests of m_events, the second after the first trigger, fire what was registered, READ first |
| IoManagerCode.IOManager.Dispatch | duan_src/iomanager.cc:351-395 | one turn of the loop, through the context in data.ptr, cut off or not, does what the model's unmasked dispatch does and changes no other array entry |
| IoManagerCode.IOManager.ReadReport | duan_src/iomanager.cc:358-367 | the reported directions, an error or hang-up standing for both, and no other array entry changes |
| IoManagerCode.IOManager.DispatchAll | duan_src/iomanager.cc:346-396 | the loop over the array is the sequence of its turns, up to the first stop |
| FiberModel.ConsistentIff | duan_src/fiber.cc:105-199 | an operation keeps "t_fiber names the executing code and every context its own fiber" if and only if swapIn comes from the scheduling loop and call from the thread fiber |
| FiberModel.DisciplineKeepsConsistent | duan_src/fiber.cc:105-237 | this holds over every disciplined run |
| FiberModel.GivingUpNeverStops | duan_src/fiber.cc:149-236 | on a worker thread, over every disciplined run, a yield or the end of a fiber meets no assertion and leads back to the scheduling loop |
| FiberModel.GivesControlBack | duan_src/fiber.cc:138-233 | a fiber swapped in runs, and on yield or end the loop continues with the fiber in the state it left; it can be entered again if and only if it did not end |
| FiberModel.LoopLostForever | duan_src/fiber.cc:138-162 | once no context leads back to the loop, none ever does |
| FiberModel.NestedSwapInLosesTheLoop | duan_src/fiber.cc:138-162 | after one swapIn from inside a fiber of a worker thread the scheduling loop never executes again, whatever follows |
| FiberModel.StartIsConsistent | duan_src/fiber.cc:177-185 | a thread after its first GetThis is consistent |
| FiberHistory.RunsAreTold | duan_src/fiber.cc:61-236 | over every run of a thread a fiber's state is that of its last creation, reset, entry, yield or end, its function is the one handed over last unless that has returned since (a throw leaves it), and MainFunc entered at the top calls the function this fiber was handed last |
| FiberHistory.StartedOnce | duan_src/fiber.cc:61-236 | over every disciplined run each function handed over is started at most once, by the first entry after the hand-over |
| FiberHistory.EntryFailsIff | duan_src/fiber.cc:138-236 | over every disciplined run a swapIn stops at line 140 if and only if the fiber executes, and at line 236 if and only if it has ended and was handed nothing since |
| FiberHistory.ResetFailsIff | duan_src/fiber.cc:105-121 | over every run a reset stops at line 106 if and only if it is for the fiber without a stack, and at line 107 if and only if the fiber was entered or has yielded since its last hand-over and has not ended |
| FiberCode.ThreadLocals.constructor | duan_src/fiber.cc:177-185 | the thread fiber and the thread-local variables after the first GetThis |
| FiberCode.ThreadLocals.NewFiber | duan_src/fiber.cc:61-84 | making a fiber does to the thread what the model's creation does |
| FiberCode.ThreadLocals.SwapContext | duan_src/fiber.cc:143-145 | saves the executing code in one context and resumes what the other holds |
| FiberCode.ThreadLocals.YieldTo | duan_src/fiber.cc:188-199 | does what the model's yields do |
| FiberCode.ThreadLocals.MainFuncEnds | duan_src/fiber.cc:209-236 | does what the model's end of MainFunc does |
| FiberCode.Fiber.constructor | duan_src/fiber.cc:61-84 | a new fiber is INIT and starts at MainFunc |
| FiberCode.Fiber.OfThread | duan_src/fiber.cc:47-58 | the fiber of a thread is EXEC and has no callback |
| FiberCode.Fiber.Reset | duan_src/fiber.cc:105-121 | does what the model's reset does, stop lines included |
| FiberCode.Fiber.Call | duan_src/fiber.cc:123-131 | does what the model's call does |
| FiberCode.Fiber.SwapIn | duan_src/fiber.cc:138-146 | does what the model's swapIn does, line 140 included |
| FiberCode.Fiber.SwapOut | duan_src/fiber.cc:149-162 | does what the model's swapOut does |
| FiberHandOff.OneTokenIff | duan_src/scheduler.cc:166-209 | write by write: "one entry or one worker has the fiber" survives if and only if a wake-up is for a parked fiber; the process stops if and only if an ended fiber is entered, at line 236 of fiber.cc, never at 140 |
| FiberHandOff.TimelyWakesAreSafe | duan_src/scheduler.cc:166-209 | so in every interleaving of writes with such wake-ups no two workers are on one stack and the assertion of swapIn holds |
| FiberHandOff.EndedIsOverIff | duan_src/fiber.cc:206-236 | "no entry and no worker waits to enter an ended fiber" survives if and only if a wake-up is not for an ended fiber |
| FiberHandOff.LiveWakesNeverStop | duan_src/fiber.cc:138-236 | with wake-ups for parked fibers that have not ended, no write in any interleaving stops the process |
| FiberHandOff.ReadyStaysQueued | duan_src/scheduler.cc:203-208 | over every run of writes a READY fiber that no worker has is queued, and an entered fiber is never INIT again |
| FiberHandOff.EndedStaysEnded | duan_src/scheduler.cc:203-208 | over every run with timely wake-ups an ended fiber keeps the state it ended in |
| FiberHandOff.EndedWakeStops | duan_src/fiber.cc:206-236 | a wake-up for an ended fiber leads to line 236 |
| FiberHandOff.EarlyWakeSharesTheStack | duan_src/fiber.cc:194-198 | from every state in which the fiber executes, one early wake-up leads in three more writes to two workers on its stack |
| FiberHandOff.DuplicateEntriesStop | duan_src/scheduler.cc:180-200 | two entries for one waiting fiber lead to the failing assertion of swapIn |
| SchedulerModel.FirstEligible | duan_src/scheduler.cc:168-192 | the scan takes the first entry that is unpinned or pinned here and whose fiber is not executing |
| SchedulerRuns.Exclusion | duan_src/scheduler.cc:161-253 | over every run, duplicate handles included, a task fiber is EXEC if and only if exactly one worker holds it |
| SchedulerRuns.ExclusionFromTheStart | duan_src/scheduler.cc:161-253 | so for every run from the start with workers of any threads |
| SchedulerRuns.TurnStopsIff | duan_src/scheduler.cc:198-216 | with dequeueing and entering one step: a turn stops exactly on resuming a finished fiber with line 198 as written, or on resetting a callback fiber in a wrong state |
| SchedulerRuns.FinishedFiberExample | duan_src/scheduler.cc:198-200 | a complete run: one fiber submitted twice ends in its first turn, and the second stops at line 236 of fiber.cc as written, and drops the entry with `&&` |
| SchedulerRuns.IdleFibersAreEntered | duan_src/scheduler.cc:239-251 | after every run from the start a worker that finds nothing enters an idle fiber in INIT or HOLD, so neither assertion on the way can fail, or leaves after a stop that was asked for |
| FiberLedger.LedgerTells | duan_src/scheduler.cc:161-251 | over every run from the start a log of entries and returns tells the state of every fiber and whether it has a function, where every worker is, which fiber it keeps for callbacks, and its idle fiber's state; a callback runs in the fiber its worker keeps, or else in a new one |
| CallbackFibers.PreparedIff | duan_src/scheduler.cc:211-231 | a step keeps every kept callback fiber null or INIT and unshared if and only if it does not resume one of them as a task |
| CallbackFibers.UntouchedFibersStayInit | duan_src/scheduler.cc:158-232 | over every run without such a step they stay so, and with `&&` at line 198 no turn stops at all |
| CallbackFibers.UntouchedFibersFromTheStart | duan_src/scheduler.cc:158-232 | so for every such run from the start |
| CallbackFibers.ResetFailsIff | duan_src/scheduler.cc:211-231 | over every run, stale handles included, a turn stops at line 107 of fiber.cc if and only if the worker takes a callback while another worker is inside the fiber it keeps; with `&&` at line 198 nothing else stops a turn |
| CallbackFibers.ResetFailsIffFromTheStart | duan_src/scheduler.cc:211-231 | so after every run from the start |
| CallbackFibers.StaleHandleExample | duan_src/scheduler.cc:211-227 | a complete run of two workers that ends in the failing reset: a callback schedules its own fiber and returns, the other worker resumes it, and the first takes the next callback |
| CallbackFibers.YieldedIsOverlookedExample | duan_src/scheduler.cc:220-223 | a complete run after which stopping() holds while a worker is about to re-enqueue a READY fiber |
| SchedulerCounts.CountersAreExact | duan_src/scheduler.cc:189-248 | over every run the active count is workers holding a task plus, as written, one per fiber dispatch ever begun; the idle count is the number of idle workers |
| SchedulerCounts.CountersFromTheStart | duan_src/scheduler.cc:189-248 | so for every run from the start with workers of any threads |
| SchedulerCounts.StoppingIff | duan_src/scheduler.cc:260-264 | stopping() holds if and only if it was asked for, the queue is empty, no worker is between taking a task and counting down and, as written, no fiber was ever dispatched |
| SchedulerCounts.FiberDispatchPreventsStop | duan_src/scheduler.cc:198-201 | as written, after one fiber dispatch no worker ever leaves, in every continuation |
| SchedulerCounts.TickleWakesIff | duan_src/iomanager.cc:268-276 | as written a tickle is written if and only if no worker sleeps; with the guard turned round, if and only if one does |
| SchedulerOrder.TasksAreConserved | duan_src/scheduler.cc:166-193 | over every run each submission is queued or was taken, once; pins are respected; a callback is not overtaken by a later submission with the same freedom |
| SchedulerOrder.NothingLostAtShutdown | duan_src/scheduler.cc:161-253 | in every interleaving, once all workers have left, what is still queued is pinned or was submitted after the last of them left; with unpinned timely submissions the queue is empty |
| SchedulerOrder.LastToLeaveIff | duan_src/scheduler.cc:166-243 | the last worker leaves if and only if its idle fiber has ended and every entry left is pinned to another thread; those entries are what is left behind |
| SchedulerOrder.ForeignPinPreventsStop | duan_src/scheduler.cc:172-177 | a task pinned to a thread that is no worker stays queued and stopping() never holds again |
| SchedulerOrder.PinnedLeftBehindExample | duan_src/scheduler.cc:239-242 | a run that leaves a pinned task behind |
| SchedulerCode.EntriesOf | duan_src/scheduler.h:57-69 | the entries of a batch: every non-empty handle, unpinned, in order |
| SchedulerCode.EntriesInOrder | duan_src/scheduler.h:57-69 | the entries of a batch are those of its parts in order, one for a handle and none for an empty one |
| SchedulerCode.Scheduler.StartAll | duan_src/scheduler.cc:56-69 | a worker at the head of its loop for every thread, unless the scheduler has been started |
| SchedulerCode.Scheduler.CreateFiber | duan_src/fiber.cc:61-84 | a new fiber is INIT and has a function |
| SchedulerCode.Scheduler.ScheduleNoLock | duan_src/scheduler.h:85-92 | appends a non-empty task, and says whether the queue was empty before |
| SchedulerCode.Scheduler.Schedule | duan_src/scheduler.h:44-53 | one submission, with a tickle exactly if the queue was empty |
| SchedulerCode.Scheduler.ScheduleBatch | duan_src/scheduler.h:57-69 | the loop appends all entries, empties every source place, and tickles once, exactly if the queue was empty and the batch is not |
| SchedulerCode.Scheduler.TakeTask | duan_src/scheduler.cc:166-193 | the scan loop takes the first eligible entry and asks for a tickle exactly if it passed over an entry for another thread |
| SchedulerCode.Scheduler.TurnOf | duan_src/scheduler.cc:161-248 | one pass of the loop as written does what the model's turn does, stop lines included |
| SchedulerCode.Scheduler.Act | duan_src/scheduler.cc:198-248 | what one pass does behind the lock region, with the entry taken or none |
| SchedulerCode.Scheduler.EnterFiber | duan_src/scheduler.cc:198-200 | the second count and the swapIn of a task fiber |
| SchedulerCode.Scheduler.EnterCallback | duan_src/scheduler.cc:211-219 | reset of the kept fiber or a new one, then swapIn |
| SchedulerCode.Scheduler.FindNothing | duan_src/scheduler.cc:239-247 | out of the loop, or into the idle fiber |
| SchedulerCode.Scheduler.BackTo | duan_src/scheduler.cc:201-231 | the count-down and what the state leads to, up to the re-enqueueing, as in the model |
| SchedulerCode.Scheduler.SettleFiber | duan_src/scheduler.cc:203-208 | READY is to be re-enqueued, ended stays, everything else is HOLD |
| SchedulerCode.Scheduler.SettleCallback | duan_src/scheduler.cc:221-231 | READY is to be re-enqueued, ended is reset and kept, everything else is HOLD and dropped |
| SchedulerCode.Scheduler.Requeue | duan_src/scheduler.cc:203-205 | the READY fiber goes back into the queue, unpinned, in a step of its own |
| SchedulerCode.Scheduler.IdleBackTo | duan_src/scheduler.cc:248-251 | the return of the idle fiber |
| SchedulerCode.Scheduler.Stop | duan_src/scheduler.cc:82-98 | raises both flags and changes nothing else |
| SchedulerCode.Scheduler.IsStopping | duan_src/scheduler.cc:260-264 | the test over flags, queue and active count |
| SchedulerOrder.NoReadyFiberForgotten | duan_src/scheduler.cc:203-223 | over every run a READY fiber is queued unpinned or a worker is about to queue it; once all workers have left after timely submissions no fiber is READY |
| SchedulerOrder.WhatBecomesOfTasks | duan_src/scheduler.cc:161-253 | conservation, affinity, order, shutdown and READY fibers together, for every run from the start with workers of any threads |
| StopProtocol.ReadingsHoldIff | duan_src/iomanager.cc:278-303 | what a worker between its readings has seen stays so if and only if no task sets a timer or registers an event that it has read as absent |
| StopProtocol.SoundIff | duan_src/iomanager.cc:278-303 | a decision to stop is right if and only if no worker holds expired callbacks or a READY fiber that are neither queued nor counted |
| StopProtocol.CarefulIff | duan_src/iomanager.cc:278-396 | the two together, the exact condition on a step in every variant |
| StopProtocol.CarefulStopIsFinal | duan_src/iomanager.cc:278-396 | over every run of such steps nobody leaves while a timer, an event or a task is left anywhere, and everything is quiet once all have left |
| StopProtocol.WorkIsConserved | duan_src/iomanager.cc:333-396 | in every variant and over every run, what is set, registered, queued or carried is what was brought in less what was begun, cancelled or deleted |
| StopProtocol.AllIsDone | duan_src/iomanager.cc:278-396 | once all workers have left after a careful run, everything ever brought in has been begun, cancelled or deleted, exactly once |
| StopProtocol.UndisturbedStopIsFinal | duan_src/iomanager.cc:278-396 | with carried work counted as active, the three readings one by one are safe over every run that does not disturb them |
| StopProtocol.JointCountedStopIsFinal | duan_src/iomanager.cc:278-396 | with carried work counted and one joint reading, over every run whatsoever |
| StopExamples.TornStopLosesTimerExample | duan_src/iomanager.cc:278-303 | a complete run of two workers with readings one by one, carried work counted or not, in which both leave with a timer set |
| StopExamples.JointStopLosesTimerExample | duan_src/iomanager.cc:333-341 | a complete run of two workers with a joint reading, carried work not counted, in which both leave with a timer set |
| IoStopping.StoppingMeansIff | duan_src/iomanager.cc:278-289 | the exact meaning of a stopping IOManager at one instant: no timer (but for one at the last millisecond seen from time zero), no set bit that is not being deleted, nothing queued or held |

## Left out

- SchedulerCode.Scheduler.Stop: the root fiber, the early return at lines 84-90, the tickles and the joining of threads are not modelled; nor is `use_caller`, whose `run` is that of any other worker.
- SchedulerRuns.Exclusion: dequeueing and entering are one step, and so are giving up control and reading the state at line 203; `FiberHandOff` has the single writes, for one fiber.
- SchedulerRuns.TurnStopsIff: the same; write by write two entries for one fiber do lead to line 140 (`FiberHandOff.DuplicateEntriesStop`).
- CallbackFibers.ResetFailsIff: the same; a worker that has dequeued a handle of a kept fiber but not yet entered it counts as inside.
- FiberLedger.LedgerTells: the same granularity; the state a fiber comes back in is read in the step that counts down.
- SchedulerOrder.NoReadyFiberForgotten: the state a fiber is left in is read in the step that counts down, though another worker could have entered it through a second entry before line 203.
- SchedulerCounts.StoppingIff: says nothing of a READY fiber that a worker is about to re-enqueue, because the code does not count it; `StopProtocol` does.
- SchedulerCounts.TickleWakesIff: the byte in the pipe and its draining by `idle` are not modelled.
- IoManagerCode.IOManager.constructor: the pipe, its registration with epoll and the start of the workers are not modelled.
- IoStopping.StoppingMeansIff: its three readings are taken at one instant, of three states that share no run; `StopProtocol` has them one by one in one system, with counts of timers, events and tasks in place of their contents, no leak in the active count, and nothing submitted from outside.
- IoManagerCode.IOManager.ContextResize: that a context cut off the table is never freed is a leak the model shows only by keeping it; memory is not counted.
- SchedulerCode.Scheduler.StartAll: that the thread list is empty on a start (line 62) is asked of the caller; a second start after a stop is not modelled.
- SchedulerCode.Scheduler.CreateFiber: a fiber that a user makes without a function is not modelled; fibers lose theirs by ending.
- Line 348 of `iomanager.cc`, which takes an entry for the pipe by `data.fd`, though `data` is a union with `data.ptr`; the loop on values has only entries of contexts.
- IOManager on a negative descriptor, a null scheduler in `addEvent`, an event other than READ and WRITE, and line 151 (the executing fiber is EXEC).
- Descriptors closed while registered; the kernel forgets them, the table does not.
- `duan_src/hook.cc`: it forwards to libc and rests on types that are not part of this model.
- Stacks, `makecontext`, reference counts and the assertions of `Fiber::~Fiber`; only whose code a context resumes is kept.
- Reuse of a timer's address after it is freed; addresses are distinct for the whole run. The tree behind `std::set` is a sorted sequence.
- `addConditionTimer`, which wraps its callback and calls `addTimer`; `hasTimer`.
- Mutexes and semaphores are assumed to exclude; liveness, fairness and the accuracy of clocks are not stated.
- What `isalpha` says about characters beyond ASCII letters, the formatting of log items, appenders, configuration.
- Callbacks' own code; its effects come in as further operations, in any order.
