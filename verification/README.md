# A model of crinit's scheduler and of the algorithms around it

crinit is an init daemon. It loads tasks from configuration files, starts a task once its
dependencies are fulfilled, runs each task's commands in a dispatcher thread, and takes commands
from clients while it does so. This project models that core in Dafny and proves what it promises
over whole runs.

**The scheduler** (`Tasks`, `TaskDB`, `Scheduler`; `Walk` and `Solo` build concrete runs). The task database is
a class whose methods search and change tasks in place. Every method is proved to perform one
operation of the pure function `Apply`, so that each critical section of the program is one operation.
`Scheduler` is a step system over these operations: the main loop, any number of dispatcher threads
with their 21 points of progress, and client commands, timer and elos events interleave freely.
`IsRun` says what a run is. On top of it stand
- `CausalStart` and `DeliveredStart`: no task is started before each of its dependencies was
  delivered, and none with triggers before one of them fired since the task was loaded or rearmed;
  once all this has happened the next full pass starts it, and the two inhibitions hold tasks back;
- `EventOrder` and `CommandOrder`: a dispatcher's events follow the states they stand for and none is
  left out, and the states it records are what its commands did;
- `SingleDispatcher` and `RespawnRearm`: a task has at most one start dispatcher at work, unless it
  can be respawned and is rearmed, and every such task that waits for nothing has a run with two;
- `ClosedWait`: tasks that wait for each other in a circle, or for what no task brings about, never
  start;
- `RespawnBound` and `RespawnReached`: a task with n retries is started at most n + 1 times between
  successes, a failed one is started again exactly while it has retries left, and every such task
  that waits for nothing has a run in which it is started n + 1 times in vain;
- `PidStored` and `StopKill`: while a command is under way its process is the stored PID, and a STOP
  or KILL command that runs to its end has signalled the PID it looked up or started the task's stop
  commands;
- `PidSafety` and `PidFaults`: STOP and KILL never signal a process number that has been reaped,
  under three conditions, and for each of them a run that breaks only that one and does signal such
  a number; once no such command is left, dispatchers starve for their reaping if and only if the
  last command ended early, and a run in which they do;
- `Progress` and `ProgressBound`: runs of task sets with acyclic dependencies on starts, completions
  and features are bounded, and a run that cannot go on
  is complete if and only if no task was ready when the main loop last went to wait. The loop does
  not test this, and a run of it that stops for good with a ready task is constructed.

**The log transmitter** (`ElosLog`): writers, a counter and a condition variable.

**Timers** (`Calendar`, `Timer`, `TimerAdvance`, `TimerDates`, `TimerExact`, `TimerChain`,
`TimerMonthly`, `TimerLeapDay`, `TimerPool`): the computation of a timer's next time, which always moves
forward; for unrestricted dates the exact condition on the last time under which it is the earliest
accepted one, which holds for one time of day and from every accepted time of plain ranges, and a family
of times where it fails; for one time of day on one day of every month, that it always is the earliest;
for the 29th of February, exactly when its limit of turns lets it be the earliest; and the pool that
counts the users of each timer. The C library's `gmtime_r` is a function parameter of which only the
relation of "Seconds Since the Epoch" (section 4.16 of the POSIX.1-2017 Base Definitions) is assumed;
`Calendar.GmTime` shows that such a function exists.

**Text and containers** (`RtimCmd`, `EnvSet`, `EnvExpand`, `Include`, `RingList`): runtime
commands as text, environment sets and their `${...}` expansion, include files, and the intrusive list.

Memory allocation, descriptors and hooks that can fail are Boolean or integer parameters where their
failure matters; thread creation can fail in a pass (`failAt`); lock and condition variable calls
succeed. Integers are unbounded except where the program truncates years to sixteen bits.

Where the code and its documentation differ, the model follows the code: `inc/taskdb.h:327-329`
says a task respawns while its fail count is less than the maximum of retries, `src/taskdb.c:706`
refuses only when it is greater, so the model allows one start more. The wrap-around
test for minutes (`src/timer.c:219`) has its bounds the other way round from the other fields and is
modelled that way.

## Model

| member | source | states |
|---|---|---|
| `DepLists.RemovalComplete` | src/taskdb.c:520-542 | The removal loop, which overwrites a match with the last entry and does not look at it again, removes every copy of a dependency if and only if none of the copies is among the last entries, one fewer of these than there are copies |
| `DepLists.RemovalCanFail` | src/taskdb.c:520-542 | Two adjacent copies: one survives |
| `DepLists.RemovalOnSets` | src/taskdb.c:520-542 | On a list without duplicates removal takes out exactly that dependency and leaves the list without duplicates |
| `DepLists.OthersKept` | src/taskdb.c:520-542 | Whatever the list, every other dependency keeps its number of copies |
| `TaskDB.DepsStayDistinct` | src/taskdb.c:471-583 | Every operation keeps dependency lists free of duplicates; an event delivered to all tasks, to a target or by ENABLE then removes exactly itself, DISABLE adds exactly its dependency, and nothing else changes a list |
| `TaskDB.WakeupCompleteness` | src/taskdb.c:114-583 | Every successful operation but one that makes a task ready, even while passes are inhibited, or lets passes start a ready task again, broadcasts `changed` |
| `TaskDB.SilentWakeup` | src/taskdb.c:422-439 | The exception: setting a respawn inhibition never broadcasts, and it makes a task ready exactly if it lifts the one thing that held that task back |
| `TaskDB.PassLeavesNoneReady` | src/taskdb.c:174-210 | After a successful pass that is not inhibited no task is ready |
| `TaskDB.StartedExactly` | src/taskdb.c:174-210 | A pass starts exactly the ready tasks, each once |
| `TaskDB.NamesStayUnique` | src/taskdb.c:114-172 | No operation makes two tasks share a name |
| `TaskDB.TaskDb.FindTask` | src/taskdb.c:671-685 | The search finds a task of the name at its first position, and reports failure exactly when there is none |
| `TaskDB.TaskDb.InsertTask` | src/taskdb.c:114-172 | Performs the insert operation: new tasks are appended, existing ones replaced only on request |
| `TaskDB.TaskDb.SpawnReady` | src/taskdb.c:174-210 | The loop over the tasks performs one pass: ready tasks become starting and get a dispatcher, up to the first thread that cannot be created |
| `TaskDB.TaskDb.SetInhibit` | src/taskdb.c:212-228 | Performs the operation on the inhibition of passes |
| `TaskDB.TaskDb.RearmTrigger` | src/taskdb.c:253-269 | Performs the rearm operation on the one task |
| `TaskDB.TaskDb.SetTaskState` | src/taskdb.c:271-339 | Performs the state operation, counting failures and resetting the count on success |
| `TaskDB.TaskDb.SetTaskPid` | src/taskdb.c:361-378 | Performs the PID operation |
| `TaskDB.TaskDb.SetTaskRespawnInhibit` | src/taskdb.c:422-439 | Performs the respawn inhibition operation, without broadcast |
| `TaskDB.TaskDb.AddDepToTask` | src/taskdb.c:471-518 | Performs the add operation, which leaves a known dependency alone |
| `TaskDB.TaskDb.RemoveDepFromTaskStruct` | src/taskdb.c:520-542 | The in-place loop computes `SwapRemove` and sets the trigger flag if the event is among the triggers |
| `TaskDB.TaskDb.RemoveDepFromTask` | src/taskdb.c:544-562 | Performs the removal operation on the one task |
| `TaskDB.TaskDb.FulfillDep` | src/taskdb.c:564-583 | Performs the event operation on all tasks or on the target |
| `CausalStart.CausalStart` | src/taskdb.c:174-210 | In every run a task started at step k had each dependency, loaded with it or given by DISABLE at step j, delivered by a matching step between j and k |
| `CausalStart.TriggeredStart` | src/taskdb.c:520-583 | A started task with triggers had a matching event since it was loaded or last rearmed |
| `DeliveredStart.DeliveredIsStarted` | src/taskdb.c:520-583 | The converse: a loaded task, its dependencies free of duplicates, to which each dependency and, unless it is triggered already, one trigger has been delivered has been started once a pass that is not inhibited and creates all dispatchers is over, if it was not meanwhile disabled, rearmed, replaced, marked or put into another state |
| `DeliveredStart.InhibitedStartsNothing` | src/taskdb.c:174-228 | From the command that inhibits passes to the one that lets them go on no task is started |
| `DeliveredStart.MarkedIsNotStarted` | src/taskdb.c:687-711 | A respawning task that STOP has marked is not started until the mark is taken away or the task replaced |
| `EventOrder.EventFollowsState` | src/procdip.c:491-818 | In every run each event a dispatcher delivers comes after a step of the same dispatcher that recorded the state it stands for, with no other state recorded in between: running for `spawn`, done for `wait`, failed for `fail`, and for a provided feature the state it is offered in |
| `EventOrder.ExitHasAnnounced` | src/procdip.c:779-822 | A dispatcher about to exit has recorded success or failure of its task and has delivered the `wait` or the `fail` event accordingly |
| `CommandOrder.DoneMeansAllRan` | src/procdip.c:427-543 | A dispatcher about to record success has started each of the task's commands, or stop commands in stop mode, as a process and seen that process end well |
| `CommandOrder.StartedInOrder` | src/procdip.c:427-543 | A command is started only after every earlier one was started and has ended well |
| `CommandOrder.FailedMeansFailure` | src/procdip.c:756-800 | A dispatcher about to record failure has just failed to read its task, to start a command or in a command, and has done nothing since |
| `SingleDispatcher.SingleDispatcher` | src/procdip.c:726-840 | In every run without STOP, RESTART, NOTIFY STOPPING and overwriting inserts, a task that is not rearmed or cannot be respawned (option unset, or a negative maximum of retries other than -1) has at most one start dispatcher that has not recorded a result, and none unless the task is starting or running |
| `RespawnRearm.TwoAtWork` | src/taskdb.c:253-269 | That condition is the right one: every loadable task with commands, without dependencies and triggers, that can be respawned and is rearmed has such a run, in which moreover nothing fails, with two start dispatchers at work |
| `ClosedWait.ClosedWaitSets` | src/taskdb.c:564-609 | If every member of a set waits for something that no task outside the set can bring about, as an event of its own or a feature it provides, and no timer, elos event or ENABLE either, no member ever leaves the loaded state or is started; passes, all dispatchers, timers, elos events, ENABLE, DISABLE and KILL may interleave |
| `RespawnBound.RespawnBound` | src/taskdb.c:687-711 | A respawning task with n retries is started at most n + 1 times since it was loaded or last succeeded, spawn failures included |
| `RespawnBound.NeverAgain` | src/taskdb.c:687-711 | After n + 1 failures without a success it is never started again |
| `RespawnBound.ExhaustedForever` | src/taskdb.c:295-325 | Once its fail count exceeds n it does so in every later state of the run |
| `RespawnBound.RetriedIffLeft` | src/taskdb.c:687-711 | A failed task that waits for nothing is started again by a full pass if and only if it has failed at most n times since it was loaded or last succeeded |
| `RespawnReached.BoundIsReached` | src/taskdb.c:687-711 | The bound is reached: every respawning task with commands and n retries, without dependencies, triggers and rearming, has a run of the main loop and dispatchers alone in which it is started, and fails, n + 1 times |
| `PidStored.StoredPidIsRunning` | src/procdip.c:484-539 | In every run without STOP, RESTART, NOTIFY STOPPING, overwriting inserts and reported main PIDs, a task that is neither respawned nor rearmed has the process its dispatcher waits for as its stored PID, and none when a command is about to be started or a process to be reaped |
| `StopKill.ReleasedHasActed` | src/rtimcmd.c:815-898 | A STOP or KILL command that comes to lift the inhibition has looked its task up, a STOP after marking it, and has then started a dispatcher for its stop commands, exactly if it is a STOP and the task had some, or else signalled the PID the task had at the lookup |
| `PidSafety.PidSafety` | src/procdip.c:484-539 | Whenever a STOP or KILL command is about to signal, the process number is that of a child not yet reaped, started by a dispatcher of the named task; for runs in which such a command lifts the inhibition only when no other one is between setting it and its last step, no client reports a main PID and no dispatcher that has already run a command fails to start the next one |
| `PidFaults.OverlapIsUnsafe` | src/procdip.c:842-862 | A run that breaks only the first of these conditions, the second of two KILL commands lifting the inhibition under the first one, and is about to signal a reaped number |
| `PidFaults.MainPidIsUnsafe` | src/rtimcmd.c:932-1018 | A run that breaks only the second one and is about to signal a number that is no child's |
| `PidFaults.StaleIsUnsafe` | src/procdip.c:798-807 | A run that breaks only the third one: the dispatcher reaps the number of its earlier command, which by then is another task's process about to be signalled |
| `PidSafety.InhibitedIffEndedEarly` | src/rtimcmd.c:815-898 | In every run with the first of these conditions, at every state without a STOP or KILL command under way, reaping is inhibited if and only if the last of them to end ended early: its task unknown or without a process, or its signal or stop dispatcher failing |
| `PidSafety.StarvedIffEndedEarly` | src/procdip.c:842-900 | At such a state a dispatcher that awaits reaping can go on if and only if that last command did not end early; if it did, the dispatcher stays where it is until another STOP or KILL begins |
| `PidFaults.LeakIsReached` | src/rtimcmd.c:869-898 | A safe run in which a KILL of an unknown task leaves reaping inhibited, with no command under way and a dispatcher waiting to reap |
| `PidSafety.StarvedReaping` | src/procdip.c:864-900 | From any state with reaping inhibited and no command under way, a dispatcher waits for ever unless another STOP or KILL begins |
| `Progress.CompleteIffNoneReady` | src/crinit.c:285-291 | For a task set with acyclic dependencies on the completion of tasks, on the start of tasks with commands and on features they provide while running or once done, whose commands succeed, a run that cannot go on has every task done if and only if no task was ready when the main loop went to wait for the last time, which the loop does not test; wakeups without cause included |
| `Progress.StoppedRunWaited` | src/crinit.c:285-291 | A run that cannot go on has such a last wait |
| `Progress.DispatchedOnce` | src/taskdb.c:174-210 | Each task done was dispatched exactly once, by a dispatcher that has finished |
| `Progress.AllTasksComplete` | src/crinit.c:285-291 | In particular all tasks are done if no broadcast fell between a pass and the following wait |
| `ProgressBound.RunsAreFinite` | src/crinit.c:285-291 | Such runs have at most as many steps as the rank of their first state, and three more for each wakeup of the condition variable without cause |
| `ProgressBound.LostWakeup` | src/crinit.c:285-291 | A run of the loop as written that stops for good with a ready task never started |
| `ElosLog.NoMissedEvent` | src/eloslog.c:129-165 | Whenever the transmitter sleeps without a signal, every buffered event belongs to a writer that has still to count and signal it |
| `ElosLog.InOrder` | src/eloslog.c:129-165 | What was published, is being published and is buffered is, in this order, what the `Write` steps of the run have written |
| `ElosLog.PublishedSoon` | src/eloslog.c:233-254 | Once no writer is under way, four steps of the transmitter publish everything the `Write` steps have written |
| `Timer.StepIsCyclicSuccessor` | src/timer.c:253-293 | A field moves to the least admissible value above the last one, or back to the least of all, unsettled, when there is none above |
| `Timer.MinuteTestDiffers` | src/timer.c:217-219 | The test for minutes differs from the one for the other fields exactly above a plain range, where it accepts, and in the upper part of a wrapping one, where it refuses |
| `Timer.FindDate` | src/timer.c:377-420 | The retry loop computes the bounded search |
| `Timer.ComputeNextTime` | src/timer.c:350-421 | The whole computation equals `NextTime`, about which the following rows speak |
| `TimerAdvance.NextTimeAdvances` | src/timer.c:350-421 | For all ranges, with a month range that begins at 12 or below, a next time other than zero is strictly later than the last one and accepted by the timer's check |
| `TimerAdvance.ArmedTimesIncrease` | src/timerdb.c:110-127 | The times a timer is armed with strictly increase until it is disarmed, and all after the first are accepted |
| `TimerExact.EarliestIffCarriesOver` | src/timer.c:350-421 | For any date, any weekdays, any ranges of seconds and hours and a minute range that does not wrap, from every last time in a local year from 0 to 65534: the result is the earliest accepted second after it if and only if some weekday is set, each field that moves (by the guards of lines 369 to 376) finds the smaller fields on their first values, and in an accepted hour of an accepted day neither an accepted minute above the minute range nor the rest of an hour of a wrapping range is passed over |
| `TimerExact.NextTimeIsEarliest` | src/timer.c:350-421 | So for one time of day, any date and any nonempty choice of weekdays the result is always the earliest accepted second after the last time |
| `TimerExact.NextAfterAccepted` | src/timer.c:350-421 | So is the next time after an accepted one, for any range of seconds, hours that do not wrap, a single minute or a minute range up to 59, any date and any weekdays |
| `TimerExact.NoFiringSkipped` | src/timerdb.c:110-127 | So such a timer, once it has fired and been rearmed, skips no accepted time |
| `TimerExact.NotAlwaysEarliest` | src/timer.c:369-376 | Where the condition fails: from any 00:07:30 on a set weekday a timer for minute 5 goes to 01:05:31 although it accepts 01:05:00 |
| `TimerExact.FifthMinuteUnreset` | src/timer.c:369-376 | There the hour moves and the seconds are not reset, so whatever weekdays are set the result is not the earliest |
| `TimerExact.WeeklyAccepts` | src/timer.c:210-231 | A daily timer for one weekday accepts exactly one second of each week of UTC, with its zone taken off and Monday for the lowest bit |
| `TimerMonthly.MonthlyIsEarliest` | src/timer.c:350-421 | For one time of day on a day from 1 to 28 of any month and year and a nonempty choice of weekdays the result is the earliest accepted second after every last time in a local year from 0 to 65534 |
| `TimerLeapDay.LeapDayExact` | src/timer.c:377-420 | For one time of day on the 29th of February and a nonempty choice of weekdays, from every last time in a local year from 0 to 65495: with e the first year whose leap day fits, at most 39 years on, the result is the earliest accepted second if the days up to the 28th in a common year's February and the years up to e together are fewer than 42, and otherwise the timer is disarmed |
| `TimerLeapDay.LeapDayIsEarliest` | src/timer.c:412-414 | So from every last time outside a common year's February the limit of turns suffices, as the comment there says |
| `TimerLeapDay.LeapDayGivesUp` | src/timer.c:412-414 | It does not from the 1st of February 2001: a timer for leap days on a Monday is disarmed, though 2016 has one |
| `TimerDates.RetryIsNextDay` | src/timer.c:382-402 | With unrestricted dates one retry moves to the next calendar day, through ends of months, years and leap Februaries |
| `TimerPool.Pool.InsertTimer` | src/timerdb.c:170-207 | A timer is appended to both lists exactly if there is room and a descriptor, and reported as inserted exactly if the polling thread could be told as well; slot 0 stays |
| `TimerPool.Pool.AddTimer` | src/timerdb.c:236-276 | A known timer gets one more user, an unknown one a slot of its own; failure changes nothing |
| `TimerPool.Pool.RemoveTimer` | src/timerdb.c:209-234 | One user less, and with the last one the slot is freed in both lists; slot 0 stays |
| `TimerPool.AddCounts` | src/timerdb.c:236-276 | Adding changes one count by one; every other timer keeps its count, its setting and its descriptor |
| `TimerPool.RemoveCounts` | src/timerdb.c:209-234 | Removing takes one from a positive count; every other timer keeps its count, its setting and its descriptor |
| `TimerPool.UsersBalance` | src/timerdb.c:209-276 | Over every sequence of additions and removals a timer's count is the number of uses not given back, and it is in the pool exactly while that is positive |
| `RtimCmd.ParseRtimCmd` | src/rtimcmd.c:239-306 | The cursor loops read the operation named by the first line and exactly the non-empty further lines as arguments, and fail exactly on an unknown operation |
| `RtimCmd.OpByStr` | src/rtimopmap.c:34-49 | The table search finds the operation whose name is the first line, and none if there is no such operation |
| `RtimCmd.BeginsAreTokens` | src/rtimcmd.c:260-270 | The argument count that sizes the array is the number of tokens found later |
| `RtimCmd.ToMessage` | src/rtimcmd.c:308-338 | The running pointer fills the buffer of the length computed before exactly, with the command's text and a terminator |
| `RtimCmd.OpNamesDiffer` | src/rtimopmap.c:51-66 | No two operations have the same name |
| `RtimCmd.WireNames` | inc/rtimopmap.h:14-26 | The names of the operations on the wire |
| `RtimCmd.ReadBack` | src/rtimcmd.c:239-338 | Reading a written command gives its operation and the non-empty lines of its arguments |
| `RtimCmd.RoundTrip` | src/rtimcmd.c:239-338 | It gives the same command if and only if every argument is a non-empty single line |
| `RtimCmd.ReadIsStable` | src/rtimcmd.c:239-338 | A command that was read survives writing and reading again |
| `EnvSet.Set.Search` | src/envset.c:160-177 | Finds the one entry of a name or the end of the entries, and refuses names with an equals sign |
| `EnvSet.Set.Get` | src/envset.c:106-115 | Returns what the ordered map holds for the name |
| `EnvSet.Set.SetVar` | src/envset.c:117-158 | Updates the ordered map, keeping distinct keys and the empty last entry through growth; fails exactly without memory or without room to grow, and then changes no variable |
| `EnvSet.Set.Grow` | src/envset.c:179-198 | A larger array with the same variables, or nothing changed |
| `EnvSet.Set.Dup` | src/envset.c:70-92 | A fresh set with the same variables and sizes |
| `EnvSet.LookupUpdated` | src/envset.c:106-158 | Reading gives what was last written; other variables are untouched |
| `EnvSet.UpdateKeepsOrder` | src/envset.c:117-158 | Variables keep the order of their first writing |
| `EnvSet.WritesRefineMap` | src/envset.c:106-158 | After any sequence of writes every key has its last value and the keys stand in the order of their first writes |
| `EnvExpand.ExpandValue` | src/confconv.c:357-443 | The loop over the growing buffer, every write inside it, yields the left-to-right expansion up to its first NUL, and fails exactly when the expansion does |
| `EnvExpand.SetExpanded` | src/confconv.c:454-464 | The stored value is the expansion over the set as it was before; failure changes nothing |
| `EnvExpand.QuoteExpands` | src/lexers.re:129-154 | Any text with backslash and dollar escaped expands to itself, whatever follows it |
| `EnvExpand.HexExpands` | src/confconv.c:390-397 | Every byte written with two hexadecimal digits expands to that byte |
| `EnvExpand.KnownEscapes` | src/lexers.re:14-15 | The character each known escape sequence stands for |
| `EnvExpand.UnknownEscape` | src/confconv.c:379-389 | A text with any other escape sequence at its start, other than a complete hexadecimal one, is refused |
| `EnvExpand.VariableExpands` | src/confconv.c:398-426 | A reference expands to the variable's value, to nothing if it is not set |
| `Include.LoadTask` | src/task.c:421-472 | The loop with its table of keys seen computes `Load`, include files included |
| `Include.LoadIsFlat` | src/task.c:421-472 | A task is accepted exactly when no single-valued key occurs twice, every include file opens, names only known imports and holds only include-safe keys, and no handler fails; it is then what the handlers make of the entries with the imported ones in place of each INCLUDE |
| `Include.IncludeIsSplice` | src/task.c:374-419 | Loading acceptable entries equals loading the list with the include files written out by hand |
| `Include.IncludedIsPicked` | src/task.c:421-472 | An include file contributes exactly its imported known entries, and is refused as a whole for one key that is not include-safe |
| `Include.NoNestedInclude` | src/confmap.c:13-37 | A file with an INCLUDE line cannot be included |
| `Include.KeyRows` | src/confmap.c:13-37 | Which keys may occur more than once and which an include file may hold |
| `RingList.Insert` | inc/list.h:72-77 | Inserting between neighbours keeps the ring well formed, with the entry at that place |
| `RingList.Prepend` | inc/list.h:85-87 | The entry comes first |
| `RingList.Append` | inc/list.h:95-97 | The entry comes last |
| `RingList.Delete` | inc/list.h:132-137 | The ring is well formed without the entry, whose links are cleared |
| `RingList.InsertSorted` | inc/list.h:106-119 | The entry goes before the first one the callback does not call smaller |
| `RingList.InPlaceSorted` | inc/list.h:106-119 | If the callback orders the nodes, a sorted list stays sorted there and the entry stands before its equals |
| `RingList.DeleteWhere` | inc/list.h:226-229 | The deletion-safe traversal looks at every entry once, in order, while any of them are deleted, and leaves exactly the others |

## Left out

- Shutdown, its grace period and the dispatching of stop commands at shutdown.
- RESTART and NOTIFY as sequences: their critical sections may come in any order and any number, which allows more runs than the program has.
- Timer dependencies in DEPENDS, whose removal takes the timer pool's lock again from inside the timer thread; timers are taken to occur as triggers.
- The elos connection, subscription and filters; an elos event is a step that fulfils a dependency of one task.
- The log's ring buffer is a queue without a bound that one read empties, and its deactivation is not modelled.
- Sockets, message transport, credentials, signatures, capabilities, cgroups, mounting, IO redirection and the thread pool: mostly plumbing around library calls.
- The parsers of timer definitions and of ENV_SET's key and quotes, and the other option handlers.
- Memory lifetime, and overflow of fail counts, process numbers, offsets and the transmit counter.
- TimerPool.Pool.AddTimer: one atomic step, although the program searches and inserts in two critical sections.
- TimerExact.EarliestIffCarriesOver: wrapping minute ranges, and restricted dates other than one day from 1 to 28 of every month and the 29th of February, are covered by the advance theorem only.
- EnvSet.Set.SetVar: names with an equals sign, for which the program's search fails, are not covered.
- EnvExpand.ExpandValue: memory for the buffer is always available.
