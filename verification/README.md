# a-kerno: verified model

a-kerno is a session kernel: it starts user programs in dependency order, supervises the session window manager, keeps
a table of daemons, and speaks two wire protocols. This project models the parts of it that carry an algorithm or a
protocol and proves what they guarantee. Everything is Dafny 4.11; `dafny verify dfyconfig.toml` checks the whole project.

Each imperative operation is a method, or a class with the fields the source updates, proved against a specification
function or predicate. The theorems are about those specifications and about all runs built from them.

| module | what it is |
|---|---|
| `NameOrder`, `Layering`, `Programs`, `Resolver` | the three-key order, what a correct schedule and a justified outcome are, and the layered sort with its in-degree map |
| `ProgramLoader` | collecting program definitions from two directories: it establishes the unique names and known phases (`Loaded`) that the theorems about program tables ask for (`Tables`, by `ProgramLoader.LoadedTables`) |
| `GroupRun`, `Launcher`, `LaunchSafety` | the group-by-group barrier, the interleaved start path as a step relation, and its safety theorems over all runs |
| `LaunchMeaning`, `LaunchOutcomes` | what the marks and results of the start path mean, said without its step functions, and what can still happen to an attempt |
| `Launchability`, `Startup` | the resolver against the start path: accepted exactly when everything can be launched, and exactly when both phases can succeed |
| `SessionWM`, `SessionSafety` | the session WM manager, one method per critical section; the step relation applies the same functions; theorems over all runs |
| `SessionLabels` | the states the manager shows, and when a failure can still show after a Stop |
| `SessionThreads` | the same supervisor with every goroutine a thread of its own, shown to have the same runs |
| `Bytes`, `BinCodec`, `BinTheorems` | integers as bytes, the BIN01 writer and streaming reader, and what they guarantee about each other |
| `BinReading` | which byte streams the BIN01 reader accepts, as what, and why it refuses the others |
| `Daemons`, `DaemonTable` | order groups, ordered start and stop, and the configuration reload |
| `LogBuffer` | the ring buffer of log lines |
| `Txt01`, `Txt01Meaning` | the TXT01 text protocol reader, and which inputs it refuses |
| `DesktopExec`, `Expansion` | the two string rewritings of program commands |

## How concurrency is modelled

The start path and the session WM are state machines whose steps are the stretches of code between taking and
releasing a lock (or reading one field under it). Any number of workers, commands, stops, exits and timers interleave.
Process behaviour, health checks, timers and contexts are steps the environment may take at any time they are possible.
A run is a sequence of states linked by steps; theorems quantify over all of them. `Settle` and `Fail` in `Launcher`
join the last status write of a worker with its return. `GiveUp` covers a finished dependency, a timeout and a cancelled
context, and is possible at every poll, as are `Changed` steps for exits and stops: more runs than the code has. A health check
can pass at any time, but only for a program that has one and was launched.

## Where code and documentation part

The model follows the code.

- `Tail` is documented to return the last n lines (internal/daemon/logbuffer.go:43-45); it returns the oldest n.
  `LogBuffer.TailIsDocumentedIff` says exactly when the two agree.
- `StartPhase` is documented to skip programs already running (internal/program/manager.go:164-165). That is decided by
  the state when an attempt begins. Two kinds of run launch a running program again: an attempt that overlaps the one
  that made it healthy (`Launchability.OverlapLaunchesAgain`), and a new attempt after a stale one has written the failed
  state over a healthy program (`Launchability.StaleFailureLaunchesAgain`). `Launchability.NoRelaunchIff` gives the exact
  condition; one attempt never launches twice (`LaunchSafety.OneLaunchPerAttempt`).
- `Stop` is documented to terminate the session WM and disable restarts (internal/sessionwm/manager.go:87). A launch
  already past the re-check is missed; `SessionSafety.FirstStopIsFinalIff` gives the exact condition.
- `Stop` is also documented to disable restarts until Start (internal/sessionwm/manager.go:87). A Start clears `stopping` but not
  the policy that Stop has disabled (`SessionSafety.StartDoesNotRestore`); `SessionSafety.RestartIff` gives the exact
  condition for a restart.
- `encodeAttr` takes any key; a length of 65534 or 65535 makes the reader slice out of bounds and a longer key is
  truncated in its prefix. `BinTheorems.AttrRoundTripIff` gives the exact domain.
- The generated daemons.ini says that toggling `enabled` starts or stops a daemon on reload (internal/daemon/config.go:76);
  a reload ignores everything about a daemon it already manages. `DaemonTable.TakesEffectIff` and
  `DaemonTable.LatestInForceIff` say exactly when the file that was read is in force.
- `ParseCommand` speaks of returning the last command when the stack is not empty (parser/parser.go:82-88); it returns EOF,
  and an unterminated last line is dropped. `Txt01.TailLossIff` says exactly when that makes a difference.
- Not promised, but easily assumed: that dependencies are healthy when a program is launched. They were when polled
  (`LaunchSafety.DependenciesSeenHealthy`), and can be lost by then (`LaunchOutcomes.DependencyCanBeLost`).
- Not promised, but easily assumed: that a manager reported stopped after Stop stays so. `SessionLabels.LateFailure` is a run in
  which it turns to failed; `SessionLabels.TurnsFailedIff` says when that can happen.
- Not promised, but easily assumed: that one strip is enough. Stripping Exec codes leaves `%f` of `%%f`, so a second strip
  would change the text again; `DesktopExec.StripTwiceIff` says exactly when it would not.

## Model

| member | source | states |
|---|---|---|
| ProgramLoader.ScanDir | internal/program/config.go:95-136 | One directory scan fails exactly when a file that decides its name is broken; otherwise it returns exactly the definitions of the first file of each base name not defined before, with distinct names and known phases, and marks those names as seen |
| ProgramLoader.PhaseFrom | internal/program/config.go:200-205 | Whatever the phase values in a file, the resulting phase is `early` or `post` |
| ProgramLoader.ExtMeaning | internal/program/config.go:106-110 | The suffix that decides a file's kind is the last dot and what follows it, and empty without a dot |
| ProgramLoader.IniPhaseMeaning | internal/program/config.go:200-205 | An .ini file puts its program in the early phase if and only if its last phase value spells `early` in letters of either case; any other value means post |
| ProgramLoader.DesktopPhaseMeaning | internal/program/config.go:316-320 | A .desktop file does so if and only if the last of its phase values that spells either phase spells `early`; unknown values are skipped |
| ProgramLoader.DefinesMeaning | internal/program/config.go:95-136 | A directory defines exactly the programs whose name was free and whose first listed `name.ini` or `name.desktop` file says just that, field by field, with the phase its values mean |
| ProgramLoader.BrokenMeaning | internal/program/config.go:95-136 | A scan fails if and only if the first listed file of some free name cannot be read as a definition |
| ProgramLoader.LoadProgramConfigs | internal/program/config.go:50-91 | Loading fails exactly in the listed cases (a missing fallback directory is none); the result holds exactly the .ini definitions and those .desktop definitions whose base name no .ini file has, with distinct names and known phases, listed with no post program before an early one, no higher priority value before a lower one in the same phase, and names ascending within a priority |
| ProgramLoader.SortedIsUnique | internal/program/config.go:72-88 | A set of definitions has one sorted list, so neither directory order nor the sort algorithm shows in the result |
| ProgramLoader.Sort | internal/program/config.go:72-88 | Sorting keeps exactly the definitions and leaves them strictly ascending |
| ProgramLoader.SortedInOrder | internal/program/config.go:72-88 | A list that is ascending in the comparator has early before post, then priority values from low to high, then names by the first differing character, a proper prefix first |
| NameOrder.BeforeStrictTotalOrder | internal/program/manager.go:134-148 | The three-key comparator is irreflexive, total on distinct names and transitive, for any phase strings; which way it sorts is said by BeforeMeaning |
| NameOrder.BeforeMeaning | internal/program/manager.go:134-148 | One program sorts before another exactly when it alone is early, or neither or both are and its priority value is lower, or that is equal too and its name is smaller |
| NameOrder.StringLessMeaning | internal/program/manager.go:147-147 | A name is smaller exactly when it is a proper prefix or has the smaller character at the first difference |
| NameOrder.AscendingInOrder | internal/program/manager.go:133-148 | An ascending listing stands in that order: early first, lower priority value first, smaller name first |
| NameOrder.SortNamesAscending | internal/program/manager.go:133-148 | Sorting a repetition-free ready list gives a strictly ascending one |
| NameOrder.AscendingUnique | internal/program/manager.go:117-148 | A set of names has one strictly ascending listing |
| Layering.ScheduleIsAcyclic | internal/program/manager.go:115-161 | Any assignment of programs to groups with dependencies strictly earlier rules out every dependency cycle |
| Layering.GroupIsLongestChain | internal/program/manager.go:115-161 | A program is in group i exactly when the longest dependency chain ending in it has i + 1 members: no in-degrees in the definition |
| Layering.LayeringIsMinimal | internal/program/manager.go:115-161 | No schedule whatever places a program in an earlier group or uses fewer groups |
| Layering.LayeringUnique | internal/program/manager.go:115-161 | A configuration has one layering, as a list of lists |
| Layering.ChainClimbs | internal/program/manager.go:115-161 | Group indices grow by at least one along every link of a dependency chain |
| Layering.StuckSetHasCycle | internal/program/manager.go:124-131 | A non-empty set of programs each depending on a member contains a dependency cycle (backward walk and pigeonhole) |
| Layering.RemainingIsGreatestStuckSet | internal/program/manager.go:115-131 | The names still remaining when nothing is ready contain every set of programs that can only wait for each other |
| Layering.PlaceReady | internal/program/manager.go:115-158 | One round keeps the loop invariant: placed names once, dependencies earlier, and no name placed later than necessary |
| Layering.PlacedIsNotStuck | internal/program/manager.go:115-158 | No program placed in a group belongs to any set that can only wait for itself |
| Resolver.ProgramManager.ResolveDependencies | internal/program/manager.go:63-162 | The outcome is justified: groups only for a well-formed graph and then the layering; each error only with the defect it names; the cycle error only with a cycle, listing the greatest stuck set; every group returned lists early programs first, then lower priority values, then smaller names |
| Programs.ResolutionDetermined | internal/program/manager.go:59-162 | Groups are returned if and only if the checks pass and there is no cycle, the cycle error if and only if the checks pass and there is one; two resolutions under different map iteration orders agree and return equal groups |
| Programs.GroupsInOrder | internal/program/manager.go:133-148 | In every justified result each group lists no post program before an early one, no higher priority value before a lower one in the same phase, and no larger name before a smaller one of the same phase and priority |
| Resolver.BuildGraph | internal/program/manager.go:75-106 | If no dependency entry is invalid, the adjacency lists mirror the declarations with multiplicity and each in-degree counts its program's entries; otherwise the defect reported is real |
| Resolver.AddDependencies | internal/program/manager.go:86-106 | The inner loop stops at a self, unknown or cross-phase dependency, or records every entry of one program |
| Resolver.CollectReady | internal/program/manager.go:116-148 | The ready list is exactly the remaining names with no remaining dependency, in strictly ascending order |
| Resolver.Unlink | internal/program/manager.go:153-158 | Removing one name lowers every in-degree by the number of times it was declared, so in-degrees keep counting the entries still remaining |
| Resolver.RemoveReady | internal/program/manager.go:152-158 | Removing a whole group keeps that count for the names that remain |
| Resolver.PendingRemove | internal/program/manager.go:154-157 | The multiplicity count drops by exactly the number of entries naming the removed program |
| Resolver.PendingZero | internal/program/manager.go:117-122 | An in-degree is zero exactly when no declared dependency remains |
| Resolver.ProgramManager.constructor | internal/program/manager.go:28-51 | One fresh program object per name, holding the last definition of that name, pending or disabled |
| Resolver.Program.constructor | internal/program/manager.go:36-47 | A program starts pending, or disabled if its definition is, without a process |
| Resolver.Program.BeginStart | internal/program/manager.go:237-250 | A start attempt goes ahead exactly when the program is not running, healthy, starting or disabled, and then marks it as waiting |
| Resolver.ProgramManager.BeginStart | internal/program/manager.go:231-250 | Seen from the whole table, the first section of an attempt is the Enter step of the start path: it marks one known program or changes nothing, and no process is touched |
| Resolver.ProgramManager.SetState | internal/program/manager.go:260-277 | A state write changes the entry of one program in the table and of no other, as the steps of the start path do |
| Resolver.ProgramManager.RecordLaunch | internal/program/manager.go:307-313 | The section after an exec is the Record step of the start path: that one program is running with its process, every other program keeps state and process |
| GroupRun.StepInv | internal/program/manager.go:189-224 | Every step of the group loop keeps its invariant |
| GroupRun.Barrier | internal/program/manager.go:189-224 | Workers of a group exist only once every member of every earlier group returned nil; a failed member means no later group begins |
| GroupRun.OutstandingIsAwaited | internal/program/manager.go:214-223 | A worker that has not returned belongs to the group the loop is waiting for |
| GroupRun.FailureHasCause | internal/program/manager.go:221-223 | The loop fails only because a member of the group at hand returned an error |
| GroupRun.CanSucceed | internal/program/manager.go:189-226 | As long as no member has failed and the loop is not over, it can still run to success |
| GroupRun.CanBeCancelled | internal/program/manager.go:190-194 | The loop can be cancelled at every barrier with a group behind it, and then begins nothing more |
| GroupRun.CancelledBetweenGroups | internal/program/manager.go:190-194 | A cancelled loop had groups left, has begun none of them, and every member it did begin returned nil |
| Launcher.PhaseGroups | internal/program/manager.go:172-206 | Group i of a phase run holds exactly the members of resolved group i that belong to the phase; which those are is said by PhaseSlots and KnownPhaseSlots |
| Launcher.StepInv | internal/program/manager.go:231-334 | Every critical section of every worker, command, health check or exit keeps the start path invariant: observations are logged before launches, running and healthy programs were launched, disabled ones stay disabled; when a program becomes healthy is said by HealthyOnlyByCheck and UncheckedHealthyAtOnce |
| Launcher.StepRuns | internal/program/manager.go:166-227 | Every step keeps each phase run and its workers in agreement: spawned slots, results and return values |
| LaunchSafety.LaunchAfterDependencies | internal/program/manager.go:231-301 | In every reachable state a process was launched only for an enabled program, after this very attempt had logged a poll of each dependency, each of which had been launched before that poll |
| LaunchSafety.DependenciesSeenHealthy | internal/program/manager.go:252-264 | In every run, each dependency of a launched program was in the healthy state in some earlier state of the run, after the attempt began, and the attempt polled it in just that state |
| LaunchSafety.ChainsLaunchBottomUp | internal/program/manager.go:231-301 | Whenever a program is launched, every dependency chain below it was launched bottom-up before it |
| LaunchSafety.StuckNeverLaunched | internal/program/manager.go:231-301 | Programs that can only wait for each other are never launched, whatever is asked to start |
| LaunchSafety.PhaseBarrier | internal/program/manager.go:166-227 | In either phase a group's workers exist only once StartProgram returned nil for every member of that phase in every earlier group; after an error no later group begins; workers belong to the phase |
| LaunchSafety.PhaseSuccess | internal/program/manager.go:221-227 | When a phase run succeeds, StartProgram has returned nil for every member of the phase in every group; PhaseStartsAll says it of every enabled program of the phase |
| ProgramLoader.LoadedTables | internal/program/manager.go:28-51 | The program table and its enabled part, as built from what the loader delivers, meet the assumptions of the theorems below |
| LaunchSafety.EarlyIsSelfContained | internal/program/manager.go:98-102 | StartPhase("early") spawns only early programs, and every dependency of each is an early program whose worker returned nil in a strictly earlier group of the same run |
| LaunchSafety.NoDeadlock | internal/program/manager.go:253-264 | Once resolution succeeds, any set of waiting workers has one that polls a program none of them is starting, so waits cannot form a cycle |
| LaunchSafety.SameDependency | internal/program/manager.go:86-102 | What a launched program waits for is a dependency in the resolver's graph, enabled and of an admissible phase |
| LaunchSafety.ReachableInv | internal/program/manager.go:166-334 | Both invariants hold in every reachable state |
| LaunchSafety.OneLaunchPerAttempt | internal/program/manager.go:231-313 | A start attempt launches at most one process, and that of its own program |
| LaunchMeaning.HealthyOnlyByCheck | internal/program/manager.go:316-322 | A program with a health check becomes healthy in the step in which it passes it and in no other |
| LaunchMeaning.UncheckedHealthyAtOnce | internal/program/manager.go:323-328 | A program without one is healthy the moment the attempt that launched it returns, and that attempt returns nil |
| LaunchMeaning.ChecksPassedFirst | internal/program/manager.go:252-264 | Whenever a process is launched, each of its dependencies with a health check had passed it earlier in the run, before the attempt saw it healthy |
| LaunchMeaning.ReturnIff | internal/program/manager.go:231-334 | An attempt that began returns nil if and only if it launched its program; one that did not begin returns nil if and only if the program is known |
| LaunchMeaning.FailureMarks | internal/program/manager.go:253-304 | An attempt that fails after it began leaves its program marked failed, unless it was cancelled in its delay or met a dependency that does not exist |
| LaunchMeaning.DelayKeptIff | internal/program/manager.go:267-275 | A process was launched after a start delay if and only if its program has one |
| LaunchMeaning.PhaseSlots | internal/program/manager.go:172-206 | The members of a phase run are exactly the enabled programs of that phase in the resolved group, an empty phase counting as post |
| LaunchMeaning.KnownPhaseSlots | internal/program/manager.go:172-206 | For a configuration that resolves, they are exactly the scheduled programs of that phase |
| LaunchMeaning.PhaseLength | internal/program/manager.go:183-189 | A phase without enabled programs has no groups to run or be cancelled in; any other goes through all of them |
| LaunchMeaning.PhaseStartsAll | internal/program/manager.go:166-227 | When a phase run has succeeded, every enabled program of that phase has a worker of the run that returned nil |
| LaunchMeaning.ReachableBacked | internal/program/manager.go:277-328 | A program marked starting always has a worker about to launch it or to report on it, and a running one without a health check one about to mark it healthy |
| LaunchOutcomes.StateOnTheWay | internal/program/manager.go:249-313 | Each place an attempt comes to shows its own state of the program: waiting for dependencies, delayed, starting, running |
| LaunchOutcomes.StateAtTheEnd | internal/program/manager.go:260-334 | When an attempt ends it marks the failure it met, or health that no check has to confirm, and otherwise nothing |
| LaunchOutcomes.MissingDependencyReturns | internal/program/manager.go:254-257 | A dependency that does not exist ends the attempt there and then with an error and without marking anything |
| LaunchOutcomes.DelayCanBeCancelled | internal/program/manager.go:270-272 | An attempt in its delay can be cancelled, and its program then stays marked as delayed |
| LaunchOutcomes.PhaseCanBeCancelled | internal/program/manager.go:190-194 | A phase can be cancelled at every barrier with a group behind it, without touching its workers |
| LaunchOutcomes.CanFailIff | internal/program/manager.go:231-334 | An attempt that has not returned can still return an error if and only if it has not launched its program and the program is unknown or enabled |
| LaunchOutcomes.DependencyCanBeLost | internal/program/manager.go:252-301 | Whatever attempt is about to launch, any of its dependencies can first exit, fail its check or be stopped, and the launch still happens: "all dependencies healthy" holds of the polls only |
| LaunchOutcomes.ExitsAreOfLaunched | internal/program/manager.go:476-512 | Only programs that were launched are ever marked done or as having failed their health check |
| Startup.SessionComesUpIff | internal/program/manager.go:59-334 | The early and the post phase can both run to success, with every enabled program launched and healthy in the end, if and only if the configuration resolves |
| Startup.WholePhase | internal/program/manager.go:166-227 | A phase started when what must come before it is up can bring up all its programs and succeed, group after group, leaving other runs alone |
| Startup.RunGroup | internal/program/manager.go:189-224 | A whole group between two barriers: spawned, every member brought up, joined |
| Launchability.ResolvesIffLaunchable | internal/program/manager.go:59-162 | The resolver accepts a configuration if and only if every enabled program can be launched in some run of the start path and no early program depends on a post one |
| Launchability.ScheduledCanLaunch | internal/program/manager.go:231-334 | If resolution succeeds, every enabled program can be launched: starting them one by one in resolved order brings each of them up |
| Launchability.LaunchOne | internal/program/manager.go:231-334 | A start command for a program whose dependencies are healthy can bring it up without touching any other program |
| Launchability.NoRelaunchIff | internal/program/manager.go:164-250 | A program marked running or healthy is launched no more in any continuation in which it does not exit, fail its health check or get stopped, if and only if no attempt to start it is waiting, delaying, launching or about to report failure |
| Launchability.OverlapLaunchesAgain | internal/program/manager.go:237-250 | Of two overlapping start commands for one program the second can launch it again after the first has made it healthy, with no exit or stop of anything in between |
| Launchability.StaleFailureLaunchesAgain | internal/program/manager.go:260-262 | An attempt that gave up waiting writes the failed state over a program healthy by then, and a start command issued only after that launches it again |
| Launchability.CanLaunchAgain | internal/program/manager.go:231-334 | Every unsettled attempt of a program launched before can end in a further launch of it |
| Launchability.Revive | internal/program/manager.go:231-334 | A program launched before another ever was can be brought up again, and with it everything it depends on, without touching that other program |
| Launchability.SettledStays | internal/program/manager.go:231-334 | Without an unsettled attempt the mark stays and no launch is logged, at every point of every continuation that leaves the program alone |
| SessionWM.Manager.constructor | internal/sessionwm/manager.go:43-49 | A fresh manager is idle, without process, not stopping, under the configured policy |
| SessionWM.Manager.StartGate | internal/sessionwm/manager.go:76-82 | Start proceeds unless running or starting, and then clears `stopping` |
| SessionWM.Manager.Launched | internal/sessionwm/manager.go:181-187 | After an exec the fields hold the process, its group and the running state |
| SessionWM.Manager.AfterWait | internal/sessionwm/manager.go:205-212 | Reaping clears the process fields and reads `stopping` and the policy in one section |
| SessionWM.Manager.AfterBackoff | internal/sessionwm/manager.go:247-254 | The re-check relaunches, counting it, unless `stopping` is set |
| SessionWM.Manager.StopSection | internal/sessionwm/manager.go:93-99 | Stop sets `stopping`, disables the policy, and reads the group and the state in one section |
| SessionWM.Manager.CleanupLocked | internal/sessionwm/manager.go:264-271 | Cleanup clears the process fields and the state |
| SessionWM.StepInv | internal/sessionwm/manager.go:70-262 | Every interleaved step of the supervising chain, the Stops and the exits keeps the supervision invariant: at most one live process, a legal launch log, consistent fields |
| SessionThreads.OneSupervisor | internal/sessionwm/manager.go:153-262 | With Start's caller and every monitor goroutine as a thread of its own, at most one thread is active in every reachable state, the threads together are in a state the single chain can reach, and at most one process is alive |
| SessionThreads.Forward | internal/sessionwm/manager.go:153-262 | Every step of any thread is a step of the single chain and keeps the active thread unique |
| SessionThreads.Backward | internal/sessionwm/manager.go:153-262 | Every step of the single chain is a step of some thread |
| SessionThreads.ForwardPath | internal/sessionwm/manager.go:70-262 | Every run of the threads is, state by state, a run of the single chain, so what holds of all runs of the chain holds of all runs of the threads |
| SessionThreads.BackwardPath | internal/sessionwm/manager.go:70-262 | Every run of the single chain is, state by state, a run of threads, so its counterexamples are real |
| SessionThreads.ChainIsThreads | internal/sessionwm/manager.go:70-262 | Every reachable state of the single chain is reached by the threads |
| SessionSafety.Supervision | internal/sessionwm/manager.go:70-284 | In every reachable state at most one process is live, launches and exits alternate with every relaunch allowed by the policy for the exit before it, and attempts equal one plus the restart count minus a relaunch counted but not yet attempted |
| SessionSafety.PolicyRespected | internal/sessionwm/manager.go:218-230 | A relaunch follows an exit, under on-failure a failing one, and never happens under disabled; RestartIff says when one follows |
| SessionSafety.RestartIff | internal/sessionwm/manager.go:195-284 | After an exit another launch can follow if and only if no Stop has ever been called and the configured policy is always, or on-failure and the exit was a failure |
| SessionSafety.StartDoesNotRestore | internal/sessionwm/manager.go:87-94 | A Start after a Stop does not bring restarts back: some run has Stop, then Start, then a failing exit that nothing follows, under every policy |
| SessionSafety.FailedIff | internal/sessionwm/manager.go:172-262 | Without a Stop the supervisor ends up failed if and only if a launch failed or a process failed under the policy without restarts, and otherwise stopped |
| SessionLabels.StateShown | internal/sessionwm/manager.go:153-262 | Without a Stop, each state is shown in its own places only: starting while a launch is under way, running from its record through exit and backoff until the monitor is done |
| SessionLabels.CleanExit | internal/sessionwm/manager.go:218-230 | A clean exit is possible and is followed by another launch if and only if the policy always restarts |
| SessionLabels.BackoffEndsEitherWay | internal/sessionwm/manager.go:238-254 | The backoff can end in another launch, or, when the context ends, in none and the stopped state |
| SessionLabels.TurnsFailedIff | internal/sessionwm/manager.go:195-262 | Once stopping is set, the manager can still come to show failed if and only if a launch was under way or an exit had been read before, as a failure under the policy without restarts |
| SessionLabels.LateFailure | internal/sessionwm/manager.go:256-262 | Under every policy that restarts, some run has Stop called after a failed relaunch return with the manager stopped, and the manager then turn to failed |
| SessionLabels.FirstFailureIsOver | internal/sessionwm/manager.go:172-180 | After a first launch that failed there is nothing left to write; only a failed relaunch leaves the monitor one more state write |
| SessionLabels.ForcedStopForgets | internal/sessionwm/manager.go:123-134 | A Stop that has waited long enough can return while its process is alive, with the fields cleared |
| SessionSafety.AtMostOneLateLaunch | internal/sessionwm/manager.go:88-134 | After `stopping` is set another launch attempt is possible exactly when one was already past the re-check, and then at most one more follows in any continuation |
| SessionSafety.StopCanMissLaunch | internal/sessionwm/manager.go:94-104 | From every reachable state with a launch in flight, some run has Stop return without a kill and the process alive afterwards |
| SessionSafety.FirstStopIsFinalIff | internal/sessionwm/manager.go:87-134 | "Stop terminates the session WM" holds of the first Stop, in all continuations, exactly when no launch is in flight as it begins |
| SessionSafety.AtRest | internal/sessionwm/manager.go:88-271 | Once the monitor chain is over and every Stop has returned, the state is stopped or failed and no process or group is held, whatever the interleaving |
| Bytes.DecodeEncode | internal/binparser/writer.go:78-78 | Little-endian bytes of any width read back as the number modulo that width |
| Bytes.Decode64 | internal/binparser/writer.go:147-147 | A signed 64-bit integer survives the two's-complement little-endian trip |
| Bytes.DecodeBE16 | internal/binparser/writer.go:100-102 | The two key-length bytes read back as the length modulo 65536 |
| BinReading.LittleEndian | internal/binparser/writer.go:78-78 | Byte i of a stored length or integer counts the multiples of 256 to the power i |
| BinCodec.PutLE | internal/binparser/writer.go:78-78 | Storing an integer into a buffer writes exactly its little-endian bytes there and nothing elsewhere |
| BinCodec.EncodeValue | internal/binparser/writer.go:116-168 | The in-place value encoders fill a buffer with exactly the documented tag and bytes; a value of any other type is encoded as its formatted text |
| BinCodec.EncodeSized | internal/binparser/writer.go:134-140 | The string and blob encoders write tag, 4-byte length and content |
| BinCodec.EncodeAttr | internal/binparser/writer.go:94-111 | An attribute payload is length prefix, key, value |
| BinCodec.Writer.WriteFrame | internal/binparser/writer.go:75-89 | A frame appends type, length and payload to the stream, nothing else |
| BinCodec.Writer.WriteAttrs | internal/binparser/writer.go:32-37 | The map is emitted as one ATTR frame per key, each key once, in some order |
| BinCodec.Writer.WriteCommand | internal/binparser/writer.go:25-52 | A command appends exactly one of its encodings, for some emission order of the map |
| BinCodec.Parser.NextFrame | internal/binparser/parser.go:132-149 | Reading a frame takes exactly its bytes, or fails with bare EOF on an empty stream, ErrUnexpectedEOF on a cut header, a wrapped error on a cut payload |
| BinCodec.Parser.ReadCommand | internal/binparser/parser.go:84-129 | The accumulating loop computes the recursive decoding of the stream and leaves the unread rest |
| BinTheorems.ValueRoundTripIff | internal/binparser/parser.go:182-221 | A value is read back, an `int` as int64 and a formatted value as its text, if and only if its length plus four fits in 32 bits |
| BinTheorems.AttrRoundTripIff | internal/binparser/parser.go:153-179 | An attribute is read back if and only if its key has at most 65533 bytes and its value's length fits; keys of 65534 and 65535 bytes make the reader's uint16 slice bound wrap |
| BinTheorems.FrameRoundTrip | internal/binparser/parser.go:132-149 | A frame shorter than 2^32 bytes is read back and the rest of the stream is untouched |
| BinTheorems.FrameRoundTripIff | internal/binparser/parser.go:132-149 | A frame is read back, with the rest untouched, if and only if its payload is shorter than 2^32 bytes |
| BinTheorems.DecodeFrames | internal/binparser/parser.go:91-128 | Reading past well-formed frames accumulates them one by one |
| BinTheorems.AbsorbByKind | internal/binparser/parser.go:97-124 | What accumulates is the last CMD code, the left-to-right override of ATTR frames and the concatenation of DATA payloads |
| BinTheorems.InterleavingIrrelevant | internal/binparser/parser.go:91-128 | Re-chunking data or re-interleaving CMD, ATTR and DATA frames, order kept within each kind, leaves the decoded command the same |
| BinTheorems.CommandRoundTrip | internal/binparser/parser.go:84-129 | Decoding a written command gives its code, attributes and data back for every emission order of the map, and leaves the rest of the stream |
| BinTheorems.CommandRoundTripIff | internal/binparser/parser.go:84-129 | A command whose frames fit is read back if and only if every key has at most 65533 bytes |
| BinTheorems.DecodedKeysAreShort | internal/binparser/parser.go:153-179 | No stream makes the reader return a key of more than 65533 bytes |
| BinTheorems.StreamRoundTrip | internal/binparser/parser.go:84-129 | Any list of written commands, concatenated, decodes to exactly that list with every byte used, and then a clean EOF |
| BinTheorems.NoPrefixDecodes | internal/binparser/parser.go:91-95 | No proper prefix of a written command decodes to a command, and bare EOF arises exactly when the cut is at a frame boundary |
| BinTheorems.CutFrames | internal/binparser/parser.go:132-149 | The same for any well-formed frames ended by END |
| BinReading.ValueMeaning | internal/binparser/parser.go:182-221 | The value reader yields a value if and only if the bytes begin with its tag and wire form; what follows is ignored and any byte but 0 is true |
| BinReading.ValuePanics | internal/binparser/parser.go:184-193 | The value reader panics if and only if a complete string or blob has one of the last four 32-bit lengths |
| BinReading.AttrMeaning | internal/binparser/parser.go:153-179 | The attribute reader yields a key and value if and only if the payload is the two length bytes of a key of at most 65533 bytes, the key, and bytes that spell the value |
| BinReading.AttrPanics | internal/binparser/parser.go:153-179 | It panics if and only if the key has one of the last two 16-bit lengths or the value is too long |
| BinReading.FrameMeaning | internal/binparser/parser.go:132-149 | A frame is read if and only if the stream begins with its bytes, and what follows them is left |
| BinReading.ReactMeaning | internal/binparser/parser.go:97-127 | Reading goes on after exactly the frames CMD with a code, ATTR that spells an attribute, and DATA; it returns at END after a CMD; it gives up with each error for exactly its cause |
| BinReading.ReadsIff | internal/binparser/parser.go:84-129 | A command is read, with its parts and the rest, if and only if the stream begins with well-formed frames, a CMD among them, and an END frame: the last code, each attribute from the last frame of its key, the data in order |
| BinReading.FailsIff | internal/binparser/parser.go:84-129 | Reading fails with a given error if and only if well-formed frames are followed by that error's cause: nothing, a cut header or payload, an empty CMD, a malformed or overlong ATTR, END without CMD, or an unknown kind |
| Daemons.GroupByOrder | internal/daemon/manager.go:107-138 | The groups are non-empty, strictly ascending in order and hold exactly the enabled daemons, each under its own order |
| Daemons.Place | internal/daemon/manager.go:130-135 | One turn of the loop adds exactly the next entry, to the last group or a new one |
| Daemons.SharedGroupIffSameOrder | internal/daemon/manager.go:107-138 | Two enabled daemons share a group exactly when their orders are equal |
| Daemons.StartAllInOrder | internal/daemon/manager.go:74-98 | In every interleaving a daemon's start begins only when every enabled daemon of a lower order was started without error; on success all enabled daemons were |
| DaemonTable.DaemonManager.constructor | internal/daemon/manager.go:43-69 | The table has one fresh object per name with the last definition of that name |
| DaemonTable.Daemon.constructor | internal/daemon/manager.go:55-66 | A daemon starts stopped, or disabled if its definition is |
| DaemonTable.DaemonManager.Start | internal/daemon/manager.go:183-272 | Start fails exactly for an unknown daemon or one that does not get ready, and leaves one that is up alone; it ends running if ready and failed otherwise; a failure before the exec leaves the process fields, one of the socket leaves the process and its writers recorded |
| DaemonTable.DaemonManager.Stop | internal/daemon/manager.go:277-345 | Stop fails exactly for an unknown daemon or one that is up and whose end cannot be brought about; it clears state, process group and log writers of one that ends and leaves every other alone |
| DaemonTable.DaemonManager.CollectRunning | internal/daemon/manager.go:144-161 | The entries are exactly the enabled running daemons, each once, in non-increasing order |
| DaemonTable.DaemonManager.StopAll | internal/daemon/manager.go:143-177 | Every enabled running daemon is attempted once, in non-increasing order, whatever fails on the way; those whose stop succeeds end stopped; the first failure is returned |
| DaemonTable.FirstFailingMeaning | internal/daemon/manager.go:163-176 | The error returned is nil exactly when every stop succeeded, else it belongs to the first failing daemon of the sequence |
| DaemonTable.DaemonManager.DropRemoved | internal/daemon/manager.go:521-544 | Exactly the daemons no longer in the file are stopped, once each, and dropped, whether or not the stop succeeds; the others keep object and state |
| DaemonTable.DaemonManager.AddNew | internal/daemon/manager.go:513-569 | Every new name gets a fresh object with its definition; exactly the enabled ones get a start attempt, once each; a failing start keeps the entry |
| DaemonTable.DaemonManager.Reload | internal/daemon/manager.go:485-577 | A missing or unreadable file changes nothing; otherwise the names become those of the file, daemons that stay keep object, state and configuration, and the calls made are exactly one stop per removed and one start per added enabled daemon |
| DaemonTable.DaemonManager.WatchConfig | internal/daemon/manager.go:416-481 | Any sequence of reloads takes the managed definitions through exactly the replayed tables, files that are missing or unreadable changing nothing, and each daemon keeps the same object from one event to the next |
| DaemonTable.SameObjectThroughout | internal/daemon/manager.go:485-577 | A daemon keeps the same object throughout an unbroken presence |
| DaemonTable.UnbrokenPresence | internal/daemon/manager.go:506-574 | After any sequence of reloads each daemon runs under the configuration of the first file of its current unbroken presence |
| DaemonTable.LatestNames | internal/daemon/manager.go:506-574 | After any sequence of reloads the managed names are those of the latest file |
| DaemonTable.NoopIffSameNames | internal/daemon/manager.go:513-527 | A reload leaves the table alone if and only if the file names the same daemons, whatever else it says about them |
| DaemonTable.TakesEffectIff | internal/daemon/manager.go:513-574 | A file that was read is in force, edits included, if and only if it agrees with the table on every daemon that stays |
| DaemonTable.LatestInForceIff | internal/daemon/manager.go:513-574 | After any sequence of reloads the latest file is in force if and only if each daemon it names had its present definition already in the first file of its unbroken presence |
| LogBuffer.LogBuffer.constructor | internal/daemon/logbuffer.go:19-27 | A new buffer is empty, of the given size or 1 |
| LogBuffer.LogBuffer.Append | internal/daemon/logbuffer.go:31-41 | Appending keeps the last maxSize of the retained lines and the new one |
| LogBuffer.LogBuffer.Tail | internal/daemon/logbuffer.go:46-75 | Tail(n) is the oldest min(n, Len) retained lines in chronological order, with 50 for n <= 0 |
| LogBuffer.LogBuffer.Len | internal/daemon/logbuffer.go:78-85 | Len is the number of retained lines |
| LogBuffer.LogBuffer.Clear | internal/daemon/logbuffer.go:88-97 | Clear leaves no line, in the window or in the array |
| LogBuffer.ReplayIsWindow | internal/daemon/logbuffer.go:29-41 | After any history of appends and clears the buffer holds the last maxSize lines appended since the last clear |
| LogBuffer.TailIsDocumentedIff | internal/daemon/logbuffer.go:43-75 | Tail returns the documented last n lines, for all contents, if and only if at least as many lines are asked for as are retained |
| Txt01.Parser.ParseCommand | parser/parser.go:76-116 | The stack loop computes the recursive reading of one command and leaves the unread rest; which lines are which is said by ParseValueMeaning |
| Txt01.NextDropsTail | parser/parser.go:79-88 | Text after the last newline never becomes part of a command, nor does the end of input make one of the values read so far |
| Txt01.TailDropped | parser/parser.go:79-88 | Reading a whole input is reading it up to its last newline |
| Txt01.TailLossIff | parser/parser.go:79-97 | Leaving out the last newline makes no difference if and only if the lines before are unreadable or the last line is blank, a comment or a value; otherwise a command is lost or an error missed |
| Txt01.ReadThrough | parser/parser.go:76-134 | Complete lines are read for good before anything that follows them |
| Txt01.Parser.ReadAllCommands | parser/parser.go:119-134 | Reading command by command gives the one-pass reading of the whole input; when that fails is said by ReadFailsIff |
| Txt01Meaning.ReadFailsIff | parser/parser.go:76-134 | Reading fails if and only if some complete line, trimmed, is neither empty nor a comment, no verb, no quote followed by a string, not `t` or `f`, and no 64-bit number |
| Txt01Meaning.ParseValueMeaning | parser/parser.go:190-210 | A trimmed line is a string if and only if it is a quote and that string, a truth value if and only if it is `t` or `f`, a number if and only if it is written as one, and refused otherwise |
| Txt01Meaning.ParseIntMeaning | parser/parser.go:204-207 | The number read is n if and only if the text is an optional sign and at least one digit whose place values add up to n, within int64 |
| Txt01Meaning.TrimMeaning | parser/parser.go:92-92 | Trimming gives the one text without white space at its ends that the line is, between white space |
| Txt01.NextIsPass | parser/parser.go:119-134 | Cutting the one pass at command boundaries changes nothing |
| Txt01.SkippedLineIrrelevant | parser/parser.go:92-97 | Inserting or deleting a blank or comment line between lines of any input does not change the result |
| Txt01.PrefixCongruence | parser/parser.go:76-134 | Two continuations read alike are read alike after any common lines |
| Txt01.ParsePrintInt | parser/parser.go:204-207 | Every int64 in decimal is read back |
| Txt01.PrintedValueParses | parser/parser.go:190-210 | A printed value without newline or trailing white space is one line that is read as exactly that value, never as a verb or a comment |
| Txt01.ReadPrinted | parser/parser.go:119-134 | A printed list of commands is read back as that list |
| Txt01.ReadIsClean | parser/parser.go:76-134 | Whatever the input, every command returned has a known verb and clean strings |
| Txt01.RoundTripIff | parser/parser.go:76-134 | Printing a command list and reading it returns the list if and only if every name is a verb and no string holds a newline or ends in white space |
| DesktopExec.StripDesktopExecPlaceholders | internal/program/config.go:353-386 | The skipNext loop, reading bytes ahead and behind, computes the one pass: `%%` is a percent sign, `%` and a letter vanish, any other `%` stays; its inner writes are never reached |
| DesktopExec.DoubleThenStrip | internal/program/config.go:353-386 | Stripping undoes the doubling of every percent sign, for every string |
| DesktopExec.UnchangedIffNoCode | internal/program/config.go:353-386 | Text is left alone if and only if it holds no code, and shrinks otherwise |
| DesktopExec.StripTwiceDiffers | internal/program/config.go:353-386 | Stripping is not idempotent: `%%f` leaves a code behind |
| DesktopExec.StripTwiceIff | internal/program/config.go:353-386 | Stripping twice is stripping once if and only if a scan of the text finds no kept percent sign that a letter or another percent sign comes to follow |
| DesktopExec.CodeLeft | internal/program/config.go:353-386 | The scan finds exactly the texts whose stripped form still holds a code |
| DesktopExec.AfterPercent | internal/program/config.go:370-378 | The byte after a percent sign is the first byte of the next character |
| Expansion.ExpandVar | internal/program/config.go:419-432 | The four replacements are the four passes over the table of placeholders, with the two fallbacks |
| Expansion.PassesAreSimultaneous | internal/program/config.go:419-432 | For any table of placeholders, if no value overlaps a placeholder of a later pass, one ReplaceAll after another equals a single left-to-right substitution of all of them |
| Expansion.IndependentIff | internal/program/config.go:419-432 | The condition is exact value by value: if those before it are independent, a value leaves the passes simultaneous on all texts, whatever independent values follow, if and only if it overlaps no later placeholder |
| Expansion.Revealing | internal/program/config.go:419-432 | For every value that overlaps a placeholder there is text in which putting the value in completes that placeholder |
| Expansion.ExpandIsSimultaneous | internal/program/config.go:419-432 | The same for the four variables; and a placeholder that no value overlaps is not left in the result |
| Expansion.PlainIsEnough | internal/program/config.go:419-439 | Values without `$` or `}` that contain a digit or a slash, as a numeric user id and absolute paths do, overlap no placeholder, and neither do the fallbacks built from them |
| Expansion.LettersAreRescanned | internal/program/config.go:419-432 | Without such a character the passes can differ: the user id `OM` completes `${HOME}`, and the next pass expands it |
| Expansion.PassFills | internal/program/config.go:419-432 | One pass fills exactly its own placeholders |
| Expansion.FillKeepsClean | internal/program/config.go:419-432 | Putting in a value that does not overlap a placeholder creates no new one of it |
| Expansion.NoneLeft | internal/program/config.go:419-432 | A placeholder that no value overlaps does not occur in the result |

## Left out

- Real processes, signals, PIDs, sockets, pipes, files and clocks: outcomes are parameters or environment steps.
- Error text: only the kind of an error is modelled. Which of several invalid dependency entries is reported depends on map iteration order, so `Justified` fixes only that the reported one is real.
- I/O errors of the BIN01 writer and of the readers other than end of input.
- The `nil` map and `nil` slice a BIN01 command without ATTR or DATA frames carries: read as the empty map and the empty bytes.
- How Go formats a value of another type: an `Other` attribute carries the text that `encodeValue` falls back to (internal/binparser/writer.go:128-131).
- The TXT01 header check of `NewParser` and response formatting (parser/parser.go:52-72, 213-256).
- Text that is not valid UTF-8: TXT01 input and Exec values are sequences of characters; for Exec values the byte indices of the loop are modelled over their UTF-8 encoding.
- Parsing of .ini and .desktop files beyond the phase: `ProgramLoader` takes the other fields as parsed. Lower-casing covers the ASCII letters, which is all that comparison with `early` and `post` can see.
- `sort.Slice` as an algorithm: a sort is a function with the sorted permutation as its contract; entries of equal order in the daemon lists may come in any order in the source.
- Automatic daemon relaunch, and the restart policy field a command can change (internal/daemon/restart.go): `Start` returns early in the state it is called in.
- Overlap of a reload or StopAll with other daemon commands, and the window between collecting and stopping: `DaemonTable` runs one operation at a time.
- `Start` of a daemon runs in `StartAll` as one slot of `GroupRun`: its own steps are not interleaved.
- A second `Start` and the manual `Restart` of the session WM: runs have one Start and any number of Stops, as in the orchestrator.
- An empty session WM command (`Enabled`, `ParseSpec`): the manager is taken as configured.
- `nextRestartDelay`: the delay is an abstract timer event. SIGKILL is not assumed to end the process at once; `StopForced` covers the timeout and the cancelled context.
- Stopping of programs (`StopProgram`, `StopPhase`): a `Changed` step to stopped at any time.
- The server loop, the client library, the fsnotify events and debounce timer behind each reload, feature registry and logging.
- Expansion.IndependentIff: asks for a character that occurs in no placeholder, to build the later values from; any digit is one for the four variables.
- LaunchSafety.NoDeadlock: says that waits cannot be circular, not that every wait ends; that also needs every launched program to become healthy or finish.
- DaemonTable.DaemonManager.Start: leaves out time stamps and the restart count; process handle, PID and process group are one number, and the writers are present or not.
