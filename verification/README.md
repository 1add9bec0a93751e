# A verified model of the pmr daemon

pmr keeps long-running processes alive. Its daemon holds a table of processes; each running row is tended
by one supervisor task that spawns the child, waits for its exit or for a command, and restarts or gives
up according to a policy. This project models four parts of that daemon in Dafny and proves what they are
for:

1. the race protocol between supervisors, natural exits and the operations start, stop, restart and delete;
2. the restart policy over whole crash runs;
3. the log text algorithms: the chunked line reader, the log pump with reopening, `tail_lines`, and the
   UTF-8 truncation for the event bus;
4. the identity of table rows and their persistence: id allocation, scale, crash-safe save, resurrect.

`dafny verify dfyconfig.toml` checks the whole project.

## How the model maps the code

| module | models |
|---|---|
| `Domain` | statuses, app configurations, table rows (`src/daemon/state.rs:67-162`), dump entries (`src/daemon/dump.rs:17-22`) |
| `Policy` | `decide_restart` with its 64-bit arithmetic written out (`src/daemon/supervisor.rs:20-95`) |
| `Sections` | the effect of every lock-protected section on one row, defined once and used by `Protocol`, `Table` and `CrashRuns` |
| `Protocol` | the state machine of one row: supervisor tasks with program counters and bounded channels, operations with program counters and oneshot acknowledgements (`src/daemon/supervisor.rs:100-367`, `src/daemon/ops.rs:116-143`, `src/daemon/ops.rs:160-280`) |
| `ProtocolInvariant`, `ProtocolSteps`, `ProtocolRuns` | the inductive invariant, its preservation by every step, and how runs are put together |
| `ProtocolTheorems`, `ProtocolStatus`, `ProtocolCommands`, `ProtocolLaunches`, `ProtocolProgress`, `ProtocolRace`, `ProtocolStopping`, `ProtocolStaleMark`, `ProtocolPolicy`, `ProtocolReuse` | what holds in every reachable state and over every run, and concrete runs where a promise fails |
| `Backoff`, `CrashRuns`, `ProtocolCrash` | delays and give-up over whole crash runs, and crash runs as runs of the protocol |
| `Table`, `TableProtocol` | the process table as a class, one method per lock-protected section; id allocation at the width of the counter; the protocol's steps carried out on the table |
| `Apps` | start, scale, delete, snapshot, resurrect over that table, one after another |
| `Placements` | starts, scales and resurrects that overlap, section by section |
| `LineSplit`, `LineReader`, `Tail`, `LogPump`, `BusLine` | the log text algorithms |
| `Health` | the health-check loop |
| `DumpFile` | `save` and the reading half of `resurrect`, on a disk that can lose unsynced data |

In the protocol one step is one lock-protected section, one channel operation, one spawn or reap, or one
acknowledgement; a run interleaves the steps of all tasks arbitrarily. Child exits, spawn failures, exit
codes, clock readings and the choice a `select!` makes are supplied by the step. Dropping a receiver drops
the acknowledgement of every queued command; removing a row drops the row's end of its channel.

## Promises that fail, and when they hold

- *A row never sticks at Stopping* (comment at `src/daemon/ops.rs:187-188`). True of an unsupervised row in
  every interleaving. A supervised row can be left at Stopping with its process running and nothing in
  flight: `restart_one` reads the channel in one section and overwrites Online in a later one
  (`src/daemon/ops.rs:213-220`) without checking that the row still has that channel. With nothing in flight
  a row is stuck if and only if such a stale mark wrote its status last
  (`ProtocolStopping.StuckAtStoppingIffStaleMark`). `ProtocolStaleMark` has a concrete run, and shows of every
  stale mark that its restart is never executed and that it can strand the row.
- *An exit racing a stop must not respawn* (comment at `src/daemon/ops.rs:171-173`). True whenever the row
  shows a pid when it is marked (`ProtocolRace.StopBeatsTheExit`). There are three windows in which the mark
  is overwritten and one more child can come up before the queued command ends it: while the child is being
  launched (`src/daemon/supervisor.rs:166`), between the capture of the exit's facts and the scheduling of
  the restart (`src/daemon/supervisor.rs:206-273`), and during a backoff wait. `SpawnFollowsMarkIff` is the
  if-and-only-if over the supervisor's positions; each window has a reachable run.
- *Too many unstable restarts give up.* The window is cast to a signed 64-bit integer
  (`src/daemon/supervisor.rs:68`); when `min_uptime * max_restarts` does not fit, a crash loop never gives
  up. `CrashRuns.GivesUpExactlyAtTheLimit` is the if-and-only-if; `ProtocolCrash` carries it to the protocol.
- *Backoff grows to its cap.* `prev * 3` wraps in a release build. `Backoff.ReachesCapIff` says which bases
  ever reach the cap, `Backoff.UsedOnceIff` which of the larger ones go there at once.
- *Ids are never reused while in use.* The counter is 32 bits wide and wraps after the last id. Ids in use
  stay below it if and only if no step takes that id (`Table.AlwaysBelowIffLastIdUntaken`), and once one does
  not, and only then, allocations alone come to an id in use (`Table.ReusesUsedIdIffNotBelow`;
  `LastIdWrapsTheCounter` is a run). The counter also restarts when the table empties, so an id may be handed
  out while a supervisor of the removed row still runs (`ProtocolReuse.ReuseUnderAnOrphanBreaksTheTable`).
  `ProtocolReuse.ReuseIsSafeIffHarmless` says exactly when an id may be used again.
- *A start is rejected when the name is in the table* (comment at `src/daemon/ops.rs:66`). The check and the
  insertions are separate sections, so two starts of one name can both pass and collide
  (`Placements.OverlappingStartsCollide`). `OverlapFreeIsUnique` says when names and instance numbers stay
  unique, `CollideIffIncompatible` exactly when the operations at hand can break it.
- *The dump survives a power loss* (comment at `src/daemon/dump.rs:58-59`). The failure of a directory sync
  is ignored (`src/daemon/dump.rs:76-80`); the next save's copy to the backup may then be a moment at which
  both lists can be lost. `DumpFile.Home.Save` has the if-and-only-if for any disk, and
  `FailedDirectorySyncEndangersNextSave` two saves that lead there.
- *Lines come out as written.* Exactly when every line is short enough, whatever the chunking:
  `LineReader.PlainForEveryChunkingIffLinesFit`.

## Model

| member | source | states |
|---|---|---|
| ProtocolSteps.NextKeepsInv | src/daemon/supervisor.rs:100-367 | every step of every task keeps the protocol invariant: who owns the row, who holds each command, what each pending operation may still rely on |
| ProtocolSteps.OpStepKeepsInv | src/daemon/ops.rs:116-280 | the same for each section of launch, stop, restart and delete |
| ProtocolInvariant.SupStepKeepsInv | src/daemon/supervisor.rs:120-367 | the same for each step of a supervisor, including dropped receivers and acknowledgements |
| ProtocolTheorems.OneSupervisorOneChild | src/daemon/supervisor.rs:97-118 | in every reachable state at most one supervisor owns the row, at most one child is un-reaped, and the row's channel is exactly that supervisor's |
| ProtocolTheorems.SpawnOnlyAfterReap | src/daemon/supervisor.rs:128-319 | a child appears only by a spawn, and only when every earlier child has been reaped |
| ProtocolTheorems.SupervisorOnlyAfterClear | src/daemon/supervisor.rs:108-117 | a supervisor is created only on an existing row without a channel, when every earlier one has given its channel up |
| ProtocolTheorems.TableInvariant | src/daemon/state.rs:48-50 | a live pid, or status Launching, Online or WaitingRestart, implies an active supervisor; an announced child's pid is the row's |
| ProtocolTheorems.AtMostOneOrphanSpawn | src/daemon/supervisor.rs:130-134 | after a row was removed, all its supervisors together spawn at most one more child |
| ProtocolTheorems.CommandsAreAccountedFor | src/daemon/supervisor.rs:322-367 | while an operation waits its command is queued or in hand of a live supervisor; a dropped acknowledgement means that supervisor ended and does not own the row |
| ProtocolTheorems.SendFailsOnlyWhenDisowned | src/daemon/ops.rs:230-233 | a send fails only on a supervisor that no longer owns the row |
| ProtocolTheorems.RestartIsNeverLost | src/daemon/ops.rs:200-246 | a restart that returned while the row survives was executed, or started a fresh supervisor, or found one newer than any it knew of |
| ProtocolTheorems.ServingMeansRespawning | src/daemon/supervisor.rs:343-358 | a supervisor counts a restart as executed only with its child reaped, for an operation that still waits, and on its way to respawn; a surviving row then has unstable count, remembered delay and history forgotten, one restart more, and shows Launching |
| ProtocolTheorems.DeleteIsNeverLost | src/daemon/ops.rs:248-280 | every delete that returned has had its row removed, in every interleaving |
| ProtocolTheorems.LaunchFailsOnlyOnSpawnErrorOrRemoval | src/daemon/ops.rs:130-142 | a launch that fails without a spawn error proves that the row is gone |
| ProtocolTheorems.UnsupervisedStoppingIsTransient | src/daemon/ops.rs:187-196 | Stopping on an unsupervised row means a stop or delete past its mark, with its normalisation or removal still to come; such a row has pid 0 and is never Online |
| ProtocolTheorems.QuiescentRowIsDown | src/daemon/ops.rs:187-196 | with no operation pending and no active supervisor a row shows Stopped or Errored, pid 0, no channel, no child |
| ProtocolTheorems.StopIsFinal | src/daemon/ops.rs:160-198 | when a stop returns and no start or restart overlapped it, the row has no supervisor, no child and pid 0, and shows Stopped or Errored unless another stop or delete is at work; not Errored if the stop's command was acknowledged |
| ProtocolTheorems.StoppedStaysStopped | src/daemon/ops.rs:160-198 | from an unsupervised row no run creates a supervisor or a child until a start or restart begins |
| ProtocolStatus.StatusShowsPosition | src/daemon/supervisor.rs:149-304 | in every reachable state a supervised row shows where its supervisor stands (launching, online, waiting, stopped, errored) and the exit code of the life it speaks of; only a stop, delete or restart that has begun can make it show Stopping or Stopped instead |
| ProtocolStatus.ExecutedStopShowsStopped | src/daemon/supervisor.rs:298-304 | while an executed stop clears the channel, a surviving row has pid 0 and shows Stopped, or Stopping by another stop or delete still at work |
| ProtocolStatus.AcknowledgedStopIsNotErrored | src/daemon/supervisor.rs:334-342 | as long as no newer supervisor was started, the row of an acknowledged stop never shows Errored |
| ProtocolCommands.ExecutedCommand | src/daemon/supervisor.rs:286-309 | field by field: an executed stop leaves Stopped, pid 0 and the remembered exit code, a delete leaves no row, a restart leaves it forgiven, counted and Launching |
| ProtocolCommands.ColdRestartForgives | src/daemon/ops.rs:235-243 | a restart that finds no supervisor forgives and counts just so, and goes on to launch |
| ProtocolCommands.RestartStartsAfresh | src/daemon/supervisor.rs:343-358 | a restart executed in any reachable state, whatever came before: a quick crash loop after it gives up on exactly the max_restarts-th exit, if and only if the window fits |
| ProtocolCommands.ColdRestartStartsAfresh | src/daemon/ops.rs:235-243 | and so after a restart that launched a new supervisor |
| ProtocolCommands.ResetForgets | src/daemon/state.rs:156-161 | the reset command forgets the three counters and the history, and nothing else |
| ProtocolCommands.StopOfIdleRow | src/daemon/ops.rs:177-180 | a stop of an unsupervised row leaves it Stopped whatever it showed, and returns at once |
| ProtocolCommands.SectionsOfOperations | src/daemon/ops.rs:164-220 | which operations' sections mark a row, by fields: a stop or delete a supervised one, a restart one that shows Online; the normalisation touches only Stopping, a launch claims only a row without a channel |
| ProtocolCommands.CommandIsTaken | src/daemon/supervisor.rs:185-195 | a queued command is taken, oldest first, exactly while the child runs or a backoff is waited out |
| ProtocolCommands.GoneRow | src/daemon/ops.rs:164-168 | on a row that is gone stop, delete and restart return success at once, having done nothing; a launch fails |
| ProtocolLaunches.LaunchReportsTheSpawn | src/daemon/supervisor.rs:147-179 | a launch that reports success for the supervisor it created has seen it spawn; one that reports a spawn error has seen it spawn nothing, and it never will |
| ProtocolLaunches.OrphansSpawnAtMostOnce | src/daemon/supervisor.rs:130-134 | once the row is removed, any run spawns at most one more child, counted over its steps |
| ProtocolLaunches.ChannelsAreBounded | src/daemon/supervisor.rs:101 | a channel never holds more than 8 commands, and a send waits exactly while its receiver lives and holds 8 |
| ProtocolProgress.EveryOperationCanReturn | src/daemon/ops.rs:116-280 | the bounded channel and the acknowledgements cannot wedge: from every reachable state every operation, however it waits, has a run in which it returns |
| ProtocolProgress.EveryStateCanBeWoundDown | src/daemon/supervisor.rs:128-367 | from every reachable state some run lets every operation at hand return and every supervisor end, with the row down or gone |
| ProtocolProgress.TaskCanEnd | src/daemon/supervisor.rs:128-367 | a supervisor can run to its end from any position, without any operation moving |
| ProtocolProgress.ClosedChannelEndsTask | src/daemon/supervisor.rs:187-193 | a waiting supervisor can end by its channel closing exactly when the row and every operation have let go of it and it is empty; its child is then dropped |
| ProtocolRace.SpawnFollowsMarkIff | src/daemon/ops.rs:169-176 | after a stop, delete or restart mark in any reachable state, the row's supervisor can still spawn without executing a restart command if and only if the mark found it on its way to a spawn, announcing a child of a restartable app, past a decision to restart, or in backoff |
| ProtocolRace.PidMeansClosed | src/daemon/supervisor.rs:161-173 | a supervised row that shows a pid is in none of those positions |
| ProtocolRace.StopBeatsTheExit | src/daemon/ops.rs:169-176 | so a mark on a row that shows a pid keeps any racing exit from being answered with a spawn, over every run in which no restart command is executed |
| ProtocolRace.DoomedStays | src/daemon/supervisor.rs:206-242 | the step invariant behind it: status, captured facts, configuration and task position together rule a respawn out |
| ProtocolRace.StopWhileLaunchingMayRespawn | src/daemon/supervisor.rs:161-173 | the launch window: the mark is overwritten by Online, and a reachable state has a second child while the stop still waits in the queue |
| ProtocolRace.StopWhileDecidingMayRespawn | src/daemon/supervisor.rs:206-273 | the decision window: a mark on a row that was announced Online, after its exit's facts were captured, is overwritten by the scheduled restart, with the same outcome |
| ProtocolRace.StopInBackoffMayRespawn | src/daemon/supervisor.rs:282-313 | the backoff window: the timer can win over the queued stop, with the same outcome |
| ProtocolStopping.StuckAtStoppingIffStaleMark | src/daemon/ops.rs:200-246 | in every reachable state with no operation in flight, a row shows Stopping if and only if its status was last written by a stale restart mark |
| ProtocolStopping.StoppingOnlyWhileSomeoneStops | src/daemon/ops.rs:200-246 | unless its status was last written by a stale mark, whatever happened before, a row shows Stopping only while a stop, delete or restart is in flight |
| ProtocolStopping.NextKeepsExplained | src/daemon/ops.rs:169-221 | the step invariant behind it: a supervised row at Stopping not by a stale mark has an operation or a command in hand as its reason |
| ProtocolStaleMark.StaleMarkLeavesRunningRowAtStopping | src/daemon/ops.rs:213-234 | a reachable state with a running child, nothing in flight and status Stopping, whose next exit will not be restarted |
| ProtocolStaleMark.StaleMarkStrandsTheRow | src/daemon/ops.rs:213-234 | whenever a restart marks a row Online under another channel and its own is dead, it returns success having only marked the row |
| ProtocolStaleMark.StaleRestartIsNeverExecuted | src/daemon/ops.rs:213-234 | from every reachable stale mark, in every run: that restart is never executed, and its command never reaches any supervisor but the retired one |
| ProtocolStaleMark.EveryStaleMarkCanStrand | src/daemon/ops.rs:213-234 | from every reachable stale mark some run returns success with the row at Stopping and its supervisor untouched |
| ProtocolReuse.ReuseUnderAnOrphanBreaksTheTable | src/daemon/state.rs:171-179 | an id reused while an orphan runs: the new row goes Online with the orphan's pid and no supervisor |
| ProtocolReuse.ReuseIsSafeIffHarmless | src/daemon/state.rs:171-179 | the tasks and operations of an earlier row can change a new row under its id, whose channel is newer than all of them, if and only if some supervisor has not given its channel up or some operation has a write to come |
| ProtocolReuse.SupStepWritesIff | src/daemon/supervisor.rs:128-367 | which supervisor positions write a new row at their next step |
| ProtocolReuse.OpStepWritesIff | src/daemon/ops.rs:116-280 | which operation positions do |
| ProtocolPolicy.CountersStayInPolicy | src/daemon/supervisor.rs:206-273 | in every interleaving unstable_restarts never exceeds max_restarts, the remembered delay is 0 or in the backoff orbit, and every scheduled wait is within bounds |
| CrashRuns.GivesUpExactlyAtTheLimit | src/daemon/supervisor.rs:66-76 | from a fresh row a crash loop gives up on exactly the max_restarts-th exit after one restart fewer, if and only if the window fits 63 bits; otherwise it restarts every time |
| CrashRuns.CountsExactly | src/daemon/supervisor.rs:66-76 | a crash counts as unstable exactly when it falls in the window and its life was shorter than min_uptime, and gives up exactly when the count reaches max_restarts |
| CrashRuns.LongLivesNeverGiveUp | src/daemon/supervisor.rs:69-73 | a run in which every life lasts min_uptime never gives up, from any row below its limit and for any configuration |
| CrashRuns.ForgivenRowStartsAfresh | src/daemon/state.rs:149-153 | from a forgiven row, whatever came before, give-up is exact again and the waits begin at the base delay |
| CrashRuns.StableRunForgetsBackoff | src/daemon/worker.rs:229-236 | the wait after a crash is the base delay again exactly when the worker saw the run online for more than 30000 ms, or no delay was remembered |
| CrashRuns.WorkerForgetsIff | src/daemon/worker.rs:207-237 | the worker's pass changes a row exactly when it is live, Online and has been so for more than 30000 ms, and then only its remembered delay |
| CrashRuns.FixedDelayRemembersNothing | src/daemon/supervisor.rs:86-88 | without backoff the wait is the fixed delay and no delay is remembered |
| CrashRuns.QuickLoopGivesUp | src/daemon/supervisor.rs:206-273 | the same from any row part-way through its crashes, with restart count, status and counter of the final row |
| CrashRuns.OverflowingWindowNeverGivesUp | src/daemon/supervisor.rs:66-76 | with a window beyond 63 bits no run of any length gives up |
| CrashRuns.WindowExactIffFits | src/daemon/supervisor.rs:68-70 | the computed window never exceeds the intended one and equals it exactly when the product fits |
| CrashRuns.LongDelayNeverGivesUp | src/daemon/supervisor.rs:66-88 | with a fixed delay D and (M-1)*D >= M*min_uptime no crash run of any length gives up |
| CrashRuns.StopsExactlyAtFirstCleanExit | src/daemon/supervisor.rs:56-64 | left to itself an app stops at its first exit by a stop code (or any exit without autorestart) and nowhere else, with the final row's status |
| ProtocolCrash.CrashLoopIsRun | src/daemon/supervisor.rs:128-319 | wherever a supervisor stands at its loop head, some run of the protocol takes the row through any given crashes to exactly the row the crash loop computes |
| ProtocolCrash.GiveUpInTheProtocol | src/daemon/supervisor.rs:206-273 | so give-up after one restart fewer than max_restarts, and its failure when the window does not fit, are reachable in the protocol |
| CrashRuns.NthRestartWaitsNthDelay | src/daemon/supervisor.rs:79-94 | the delays a fresh app waits before its consecutive restarts are its orbit in order, or its fixed delay, for every configuration and however the run ends |
| CrashRuns.WaitsFollowOrbit | src/daemon/supervisor.rs:256-273 | the same from any point of the orbit, with the remembered delay advancing along it |
| Backoff.NextStaysInOrbit | src/daemon/supervisor.rs:79-94 | the next delay is again a delay of the orbit |
| Backoff.OrbitBounded | src/daemon/supervisor.rs:79-84 | no delay exceeds the larger of base and cap |
| Backoff.OrbitNondecreasing | src/daemon/supervisor.rs:79-84 | for a base of 1 to 15000 the delays never shrink and never pass 15000 |
| Backoff.OrbitReachesCap | src/daemon/supervisor.rs:79-84 | for a base of 2 to 15000 they reach exactly 15000 and stay there |
| Backoff.OrbitOfOne | src/daemon/supervisor.rs:83 | a base of 1 stays at 1 by integer division |
| Backoff.ReachesCapIff | src/daemon/supervisor.rs:79-84 | for every base, some delay is the cap if and only if the base is 2 to 15000, or above it and its wrapped growth is neither 0 nor 1 |
| Backoff.UsedOnceIff | src/daemon/supervisor.rs:79-84 | a base above the cap is used once and followed by the cap for ever if and only if three times it, wrapped, reaches 30000 |
| Backoff.OrbitAlternates | src/daemon/supervisor.rs:79-84 | a base whose growth wraps to 0 makes every second restart immediate |
| Backoff.OverflowingBaseRestartsAtOnce | src/daemon/supervisor.rs:83 | a base for which the product wraps makes the second restart immediate |
| Health.Watch | src/daemon/health.rs:27-77 | over every observation sequence the loop fires the sum over maximal failing runs of floor(length / max_fails) restarts, and the counter stays below max_fails |
| Health.OwedAfter | src/daemon/health.rs:66-76 | one more observation owes one more restart exactly when it completes a multiple of the limit within its run |
| Table.ProcessTable.constructor | src/daemon/state.rs:164-168 | an empty table, counter 0 |
| Table.ProcessTable.AllocId | src/daemon/state.rs:172-179 | the id returned is free, also after the counter was reset by an empty table; the table is unchanged |
| Table.ProcessTable.BumpNextId | src/daemon/state.rs:182-186 | the counter ends above the given id and never falls |
| Table.ProcessTable.InsertFresh | src/daemon/ops.rs:83-100 | allocate and insert in one section: exactly one new row, under an id that was free |
| Table.ProcessTable.InsertFixed | src/daemon/ops.rs:86-100 | a pinned id is refused when taken, never overwritten; otherwise exactly one new row and a counter above it |
| Table.ProcessTable.RemoveProc | src/daemon/supervisor.rs:505-525 | exactly the row disappears |
| Table.ProcessTable.Supervise | src/daemon/supervisor.rs:102-116 | only an existing row without a channel is claimed; nothing else changes |
| Table.ProcessTable.GoOnline | src/daemon/supervisor.rs:161-173 | the row shows the pid, Online and a fresh start time; other rows are untouched |
| Table.ProcessTable.SetDead | src/daemon/supervisor.rs:486-496 | status and pid 0, the exit code kept when none is given |
| Table.ProcessTable.ClearCmdTx | src/daemon/supervisor.rs:498-503 | the channel is given up, nothing else |
| Table.ProcessTable.ForgetBackoffs | src/daemon/worker.rs:207-237 | every live row stable for 30 seconds forgets its backoff, and no other |
| Table.AlwaysBelowIffLastIdUntaken | src/daemon/state.rs:171-186 | in every interleaving of allocations, late insertions and removals ids stay below the counter if and only if no step takes the last 32-bit id |
| Table.IdsAreSafe | src/daemon/ops.rs:83-100 | until then an allocated id is free and an insertion adds exactly one row or changes nothing, although scale allocates and inserts under separate locks |
| Table.ReusesUsedIdIffNotBelow | src/daemon/state.rs:172-179 | on a table in use, allocations alone hand out an id in use before they come to the last id if and only if some id in use is not below the counter |
| Table.LastIdMayGoUnnoticed | src/daemon/state.rs:172-186 | taking the last id is not yet reusing one: a run that takes it and reuses none |
| Table.LastIdWrapsTheCounter | src/daemon/state.rs:182-186 | a run in which the wrapped counter makes the next start overwrite row 0 |
| Table.WidthShowsIffLastId | src/daemon/state.rs:172-186 | a step counts as an unbounded counter would if and only if it does not take the last id |
| TableProtocol.SupervisorStep | src/daemon/supervisor.rs:128-319 | every step of a supervisor, carried out by one section on the table, moves the task and its row as the protocol says and leaves every other row alone |
| TableProtocol.ExitSection | src/daemon/supervisor.rs:206-228 | the facts the exit section captures are those the protocol decides on; a removed row ends the task |
| TableProtocol.OperationStep | src/daemon/ops.rs:116-280 | the same for every section of launch, stop, restart and delete |
| TableProtocol.FirstSection | src/daemon/ops.rs:164-182 | the first section of a stop or delete finds the row's channel and marks only that row |
| TableProtocol.SpawnSection | src/daemon/supervisor.rs:102-116 | the spawn section claims the row exactly when the protocol creates a supervisor, and finds it supervised exactly when the launch returns so |
| TableProtocol.Happen | src/daemon/worker.rs:207-237 | a step about one row, or the worker's pass over all, keeps table and protocol states equal |
| TableProtocol.Drive | src/daemon/state.rs:164-168 | any interleaving of insertions and of steps about any rows, carried out on the table, is row by row a run of the protocol; so every row with a live pid or status is supervised |
| TableProtocol.Operate | src/daemon/ops.rs:80-100 | the same from the empty table |
| Apps.Launch | src/daemon/ops.rs:116-143 | a launch leaves a supervised row alone; an idle one is Online with its child's pid and a channel if the child spawns, and otherwise Errored, pid 0 and idle; nothing else changes |
| Apps.StartNew | src/daemon/ops.rs:55-112 | a plain start rejects an invalid app and a name in use; otherwise one row per instance under consecutive fresh ids, each launched at once if the app starts by itself, up to the first whose spawn fails, and Ok exactly if none fails; instances stay unique |
| Apps.StartOutcome | src/daemon/ops.rs:106-112 | so after a start every new row is Online with pid and channel, or Stopped and idle without autostart; after a failed one the last row is Errored and idle and those before it are Online |
| Apps.StartFixed | src/daemon/ops.rs:80-112 | a pinned start refuses a taken id, and otherwise adds exactly the pinned row and launches it: Online with its child's pid, or Errored and reported, or Stopped and idle without autostart |
| Apps.Scale | src/daemon/ops.rs:301-337 | a successful scale leaves exactly the wanted number of rows of that name, keeps survivors unchanged, removes only the highest instances, clones the lowest, and every clone is up (idle without autostart); a failed one names the clone whose spawn failed, left Errored; other names untouched; instances stay unique either way |
| Apps.SortIds | src/daemon/ops.rs:311 | the ids sorted by instance, each once |
| Apps.ShrunkAsWanted | src/daemon/ops.rs:330-333 | deleting the tail of the sorted rows leaves the wanted number and only lower instances |
| Apps.GrownAsWanted | src/daemon/ops.rs:319-328 | numbering on from the highest instance gives the wanted number and no collision |
| Apps.Snapshot | src/daemon/dump.rs:26-37 | the saved list holds exactly the table's identities in order of id |
| Apps.Resurrect | src/daemon/dump.rs:104-128 | the table's identities become the restored ones whichever launches fail; rows present beforehand keep every field; every restored row is launched, and is up, Errored or, without autostart, idle; the ids returned are, for a dump without repeated ids, exactly those passed by as present or started without failing |
| Apps.RoundTrip | src/daemon/dump.rs:104-128 | resurrecting a saved table of valid configs into an empty one restores exactly its rows |
| Apps.RestoredKeepsAndAddsNoTwin | src/daemon/dump.rs:104-122 | resurrect keeps every row and adds only rows of the dump that validate and whose name was not present |
| Apps.ResurrectIsIdempotent | src/daemon/dump.rs:113-122 | resurrecting twice is resurrecting once |
| Apps.RestoredIsUnique | src/daemon/dump.rs:107-127 | a resurrect from a table's snapshot cannot make two rows share name and instance |
| Apps.Serve | src/daemon/ops.rs:55-112 | over any sequence of start, scale, delete, save (refused when empty) and resurrect no two rows share a name and an instance number, and ids stay below the counter |
| Placements.OverlapFreeIsUnique | src/daemon/ops.rs:66-100 | section by section, in every interleaving with deletions: name and instance number stay unique if no start, scale or resurrect of a name reads the table while another of that name is between its read and its last insertion |
| Placements.CollideIffIncompatible | src/daemon/ops.rs:83-100 | the operations at hand can make two rows share name and instance number if and only if a number one has still to insert is taken, repeated, or another one's too |
| Placements.OverlappingStartsCollide | src/daemon/ops.rs:66-78 | two plain starts of one name that both pass the check can always collide |
| Placements.OverlappingScalesCollide | src/daemon/ops.rs:305-328 | so can two scales that read the same rows |
| DumpFile.Home.Save | src/daemon/dump.rs:38-83 | on any disk, whichever calls fail, in every state a save goes through: what a crash leaves to be read a crash before the save could have left, or it is the complete new list, if and only if the save does not rewrite the backup or every pending rename replaced a usable dump (or the backup was unsynced before); at rest that is the old list or the new one; the backup ends as the old dump when its copy completes and is a prefix of it all along; an empty list is never installed |
| DumpFile.Home.Load | src/daemon/dump.rs:87-102 | the dump, or the backup when the dump is missing or does not parse |
| DumpFile.RecoverFromBackup | src/daemon/dump.rs:88-102 | after a save whose copy completed, with the dump lost or corrupt, what is read is the list installed before |
| DumpFile.CopyingGuardedIff | src/daemon/dump.rs:52-56 | exactly when rewriting the backup keeps that promise |
| DumpFile.CopyingReadableIff | src/daemon/dump.rs:52-56 | while the backup is rewritten every crash leaves a readable list if and only if every pending rename replaced a usable dump |
| DumpFile.InstalledIsGuarded | src/daemon/dump.rs:74-80 | after the rename a crash leaves the new list or what could be read before |
| DumpFile.UnsyncedRenameIsUnsafe | src/daemon/dump.rs:71-75 | without the sync before the rename the guarantee fails |
| DumpFile.FailedDirectorySyncEndangersNextSave | src/daemon/dump.rs:76-80 | a save whose directory sync fails, over a missing or corrupt dump, leaves a disk on which the next save passes a moment where a crash may leave no list, though until then every crash left one |
| LineSplit.SplitRebuilds | src/cli/logs.rs:143 | the reference splitting loses nothing: joining its lines gives the input back |
| LineSplit.LinesHoldNoNewline | src/cli/logs.rs:143 | and no line holds a newline |
| LineSplit.SplitIsTheOnlyOne | src/cli/logs.rs:143 | the lines are the only newline-free ones that join to the closed text, so the reference splitting is pinned down |
| LineSplit.SuffixKeepsLastLines | src/cli/logs.rs:136-154 | all but the first line of a suffix are the last lines of the whole |
| Tail.TailLines | src/cli/logs.rs:131-169 | for every file and n >= 1 exactly the last n lines of the whole file, carriage returns stripped, never a partial first line; the doubling ends |
| Tail.ReadWindow | src/cli/logs.rs:139-152 | one pass keeps the last n + 1 pieces of the window and never holds more |
| Tail.WindowSuffices | src/cli/logs.rs:153-163 | a window with more than n pieces holds the last n lines whole |
| Tail.ZeroLinesReturnsIffEmpty | src/cli/logs.rs:135-167 | without the guard, n = 0 would return on an empty file only |
| Tail.PrintTail | src/cli/logs.rs:101-107 | the guard makes n = 0 agree with the specification too |
| Tail.CrStripped | src/cli/logs.rs:145-147 | exactly one carriage return goes, and only from the end of a line |
| LineReader.EmitRebuilds | src/daemon/logs.rs:174-203 | the emitted pieces, newlines put back, rebuild the input exactly; a read error loses less than MAX_LINE bytes and no newline |
| LineReader.PiecesBounded | src/daemon/logs.rs:174-203 | no piece holds a newline or exceeds MAX_LINE - 1 bytes plus one buffer |
| LineReader.OpenPiecesAreLongOrLast | src/daemon/logs.rs:179-201 | a piece that no newline ended holds at least 1 MiB, or is the last at a clean end of the file; a read error emits no tail |
| LineReader.PlainForEveryChunkingIffLinesFit | src/daemon/logs.rs:174-203 | the output equals plain line splitting for every way of cutting the input into chunks if and only if the lines fit |
| LineReader.FittingLinesSplitPlainly | src/daemon/logs.rs:187-201 | the sufficient half, for any chunking and any accumulated prefix |
| LineReader.PlainSplitMeansFit | src/daemon/logs.rs:193-200 | the necessary half, by reading one byte at a time |
| LineReader.Reader.ReadCappedLine | src/daemon/logs.rs:174-203 | one call yields the next piece of the specification, or ends only when nothing is left |
| LineReader.ReadAll | src/daemon/logs.rs:101-108 | the pump's loop yields all pieces in order |
| LogPump.Pump.Pass | src/daemon/logs.rs:108-128 | one line: the path is reopened exactly when the counter moved, the line goes whole to the file then open, and is on disk when the reader ran dry; conservation is kept and the buffer stays within 64 KiB |
| LogPump.NextLineAfterRotation | src/daemon/worker.rs:93-111 | after a rename and a bump the next line is the first this pump writes to a new file at the path |
| LogPump.Pump.Reopen | src/daemon/logs.rs:110-113 | the old buffer reaches the old file, none of it is lost or repeated |
| LogPump.Pump.Write | src/daemon/logs.rs:114-118 | a buffered write appends to file and buffer together, also when it bypasses the buffer |
| LogPump.Drive | src/daemon/logs.rs:101-168 | through every interleaving with renames, generation bumps and other writers, the inodes the pump opened hold every line it read exactly once and in order, and it wrote nowhere else |
| LogPump.Happen | src/daemon/worker.rs:88-111 | a rotation's rename and bump, in either order and with anything between, keep it |
| BusLine.BusText | src/daemon/logs.rs:149-157 | a line over 8192 bytes is cut at the greatest character boundary within the limit, in at most three steps, and the copy is valid UTF-8 |
| BusLine.BoundaryTestIsExact | src/daemon/logs.rs:151 | on valid text the one-byte test finds exactly the positions between characters (grammar of section 4 of RFC 3629) |
| BusLine.PrefixValidIffBetweenChars | src/daemon/logs.rs:154 | a prefix of valid text is valid exactly when it ends between characters |
| BusLine.BoundaryWithinThree | src/daemon/logs.rs:151-153 | one of any four neighbouring positions is a boundary |

## Left out

- Sockets, JSON, YAML and TOML codecs, the command line, tables and the TUI, systemd units: plumbing. The dump's codec is assumed to be an inverse pair.
- Real processes, signals, process groups, uid and gid, pid files: a child is alive or reaped, and the kill sequence ends with it dead.
- CPU and memory sampling, cron expressions, file-watch callbacks, and the tasks of cron, watcher and health checks: they are further callers of restart. Cancelling such a task together with its restart when a row is removed is not modelled.
- Graceful shutdown: runs are those before it. A supervisor that returns at `src/daemon/supervisor.rs:231-233` is not part of them.
- Arming of file watchers, which registers under separate locks and gives no invariant.
- Linearizability of the reset command: it is a step that may fall between the capture of facts and their use, and only bounds are claimed.
- Liveness: nothing assumes a fair scheduler, so results say what holds when an operation returns and that it can return, not that it does.
- A send that overlaps the receiver's drop inside the channel library: sending and dropping are single steps.
- The event bus, the daemon's own log and its rotation, deletion of log files with their row, `resolve`, and running one operation over many ids in parallel: they would add only easy members.
- Reuse of an id by a later row: the protocol, and `TableProtocol.Drive`, speak of rows inserted once; `ProtocolReuse` shows why, and when reuse is safe.
- Rows are values in the table's map, as in the source; there is no aliasing to capture.
- Clock readings are unbounded integers; in the protocol the steps supply them in any order, and its guarantees hold for all of them. `ProtocolRace.SpawnFollowsMarkIff` may need an exit as late as 2^63 milliseconds when `max_restarts` is 1.
- The counters `restarts` and `unstable_restarts`, instance numbers and pids are unbounded naturals. Release-build wrapping is modelled where it matters: the unstable window, the backoff product, the id counter. A debug build panics at those overflows instead.
- Table.ProcessTable.AllocId: counts without bound; the 32-bit wrap is in `Table.IdNext`, and `Table.WidthShowsIffLastId` says when the two differ.
- Table.ProcessTable.BumpNextId: counts without bound, as above.
- Tail.TailLines: does not model a file that grows between passes, nor overflow of the window, because room for n + 1 lines cannot be allocated long before.
- Tail.ReadWindow: lines are bytes; replacing invalid UTF-8 is left to the consumer of the bytes.
- LineReader.Reader.ReadCappedLine: yields bytes; the lossy UTF-8 decoding of a finished piece is not modelled.
- LogPump.Drive: opens and writes succeed; a failing one drops lines, which the source reports in its log. Time stamps are part of the line.
- Apps.StartNew: the name check and the insertions run one after another here; `Placements` has them as separate sections, on names and instance numbers alone.
- Apps.Launch: a launch is seen from outside, as one success or failure (the child's pid, or 0, is an input); its races are the subject of `Protocol`.
- DumpFile.Home.Save: starts from a disk whose dump file itself is synced, as every save leaves it; file contents change only through saves.
- Health.Watch: a round's observation (offline, healthy, failing) is an input; running the command and its timeout are not modelled.
