# Verified model of the CachyOS kernel manager

This project models the decision logic of the CachyOS kernel manager in Dafny 4.11 and proves
properties of it over all inputs and all runs. `dafny verify dfyconfig.toml` checks everything.

What is modelled, by file:

- `Text.dfy` - strings as the program uses them: first occurrences, one-pass replacement, splitting,
  joining, trimming, decimal rendering.
- `Sequences.dfy` - what selecting and counting mean, whatever loop does it.
- `Runs.dfy` - what a run leaves of a flag that some steps set and others clear.
- `KernelNames.dfy` - the headers search needle against the language of its regular expression, and
  the removal of "-headers" as a rewriting system.
- `Discovery.dfy`, `Selection.dfy`, `Planning.dfy`, `Provenance.dfy` - the kernel pipeline: databases
  to kernels, kernels to tree rows, checkbox presses to a change list, the change list to package
  actions, the actions to commands; and the end-to-end theorems across all four.
- `AurDiscovery.dfy` - AUR discovery and the incremental reference loop it agrees with.
- `AppState.dfy`, `Pipeline.dfy` - the application state machine, alone and together with its
  discovery and transaction workers and its one dialog slot.
- `AppRuns.dfy` - whole runs of the state machine, read off the events alone.
- `BuildLifecycle.dfy` - the Configure window's build beside the process lifecycle it stands for.
- `PacmanConf.dfy` - the mINI parser with its index map.
- `PacmanText.dfy` - what the lines of pacman.conf mean, and reading a listed document back.
- `Options.dfy` - build options, the environment text they are printed to, and its parser.
- `Pkgbuild.dfy` - the two text splices into a PKGBUILD.
- `TmpPaths.dfy` - masking of volatile temporary paths.
- `ConfigureWindow.dfy` - variant switching and saving/loading in the Configure window.
- `SchedExt.dfy` - the sched-ext window, its flags field and the apply decision.

Conventions. Code that updates an object is a class with methods (`TransactionPlan`,
`SelectionState`, `MiniIni`, `VariantSwitchState`, `ConfigureWindowModel`, `ScxWindowModel`); code
that loops is a method proved equal to a declarative function, and the theorems are lemmas about that
function. `transition` is a method in the program's own event-by-event form, proved equal to a
component-by-component specification. Rust's `Vec` is `seq`, its maps are `map`, `Option` is
`Text.Option`, and `str` positions are character positions.

Facts that come from outside are parameters: database contents, the local database, the version
comparison (`older`, an arbitrary relation), hardware probes, worker answers, the user's input, the
configuration record.

Where a property the design suggests is not true of the code, the exact condition is proved, and an
input or a run on which it fails is given where the program can meet one:

- A transaction that is not idle has an enabled answer exactly when it has not failed and lost its
  error dialog. There is one dialog slot, and dismissing an error is what acknowledges a failure: a
  build that succeeds under the error takes the slot, and the answer to its question clears it
  (`Pipeline.SoftLockExactly`, the run in `Pipeline.SoftLockReached`). The dialog is lost exactly when
  a build succeeds or Configure is pressed under it, and only another error or a completed save makes
  that good (`Pipeline.LossExactly`, and over whole runs, read off the messages alone,
  `Pipeline.LostExactly`); without those two no answer is ever missing (`Pipeline.NoSoftLock`). The
  overlay blocks clicks, so Configure is pressed under it by other means only.
- The install question shares that slot: a waiting build loses its question exactly when another
  dialog takes its place or a completed save dismisses it, and then waits for good
  (`Pipeline.QuestionLossExactly`, over whole runs `Pipeline.QuestionLostExactly`, a run in
  `Pipeline.QuestionLossReached`).
- Pressing Execute keeps the job accounting exactly when the catalog is loaded; `transition` itself
  tests only for a transaction in progress, the rest is the button's guard
  (`Pipeline.ExecuteGuardExactly`, the run in `Pipeline.UnguardedExecuteKnockedBack`).
- A successful build is reported as one exactly when nothing has cleared the marker file since the
  build touched it, and a failed one as failed exactly unless a marker left over from an earlier session
  has not been cleared in this one (`BuildLifecycle.ReportedTruthfullyExactly`). What clears it is a
  completion and a refresh of the checkout that cleans. A refresh precedes every build and every opening
  of the Configure window, which nothing forbids while a finished build waits to be closed; it does not
  clean when git fails or the checkout ignores the file. A run for each failure:
  `BuildLifecycle.ConfigureHidesSuccess` and `BuildLifecycle.LeftoverMarkerMisreports`.
- An install request keeps one job in flight exactly when no process runs
  (`BuildLifecycle.InstallGuardExactly`, a second job in `BuildLifecycle.InstallRequestDoubles`); the
  window asks for one only as the answer to its question, when none runs.
- The one-pass name of discovery is the fully stripped name exactly when the pass leaves no
  "-headers" behind (`KernelNames.OnePassAgrees`). On a name with one "-headers" that is when the text
  before it and the text after it do not fit together to another one
  (`KernelNames.SingleHeadersExactly`); on the usual form, a kernel name followed by "-headers", the
  pass gives the kernel name exactly when that contains none (`KernelNames.UsualNameExactly`). A name
  that discovery accepts and on which the two differ: `KernelNames.OnePassMayLeaveOne`.
- The removal command names installed packages only, exactly when the kernels looked up for the
  removal set are installed (`Provenance.RemovalsInstalledExactly`). With rows and facts from one
  local database they always are (`Provenance.RemovalProvenance`). The worker reads that database again
  after the rows were built, and a kernel gone by then is still named
  (`Provenance.StaleRowsRemoveMissing`, a session in `Provenance.StaleStockSession`).
- A kernel can be selected exactly when its row is the only one of its raw name: a press flips the
  first row of a name, and the last one takes the name out of the change list again
  (`Selection.ChangesAreOddPresses`, `Provenance.SharedNeverSelected`). A kernel with two headers
  packages has two rows (`Provenance.TwinsNeverSelected`).
- The two splices commute exactly when one finds no place or the places differ - provided the source
  block does not hold the other marker; when it does, exactly when the block finds no place or goes in
  behind the text's own marker (`Pkgbuild.SplicesCommuteExactly`, texts on which they do not in
  `Pkgbuild.OneLineOrderShows` and `Pkgbuild.PatchNamedLikeMarker`).
- The environment text parses back exactly for non-empty names and values free of `=` and newline
  (`Options.RoundTripExactly`); all option settings are such (`Options.OptionsRoundTrip`).
- The sched-ext flags field shows the selected profile's flags exactly unless nothing was changed, no
  mode is configured and the profile first shown has other flags than Auto
  (`SchedExt.FlagsFollowSelection`); the program always shows Auto first.
- An unmodified Apply is a mode switch exactly when the mode's flags survive joining, trimming and
  splitting (`SchedExt.FlagsRecoveredExactly`, `SchedExt.ApplyUnmodified`); a configuration with a
  space in a flag is one where they do not (`SchedExt.SpacedFlagNotRecovered`).
- A reopened sched-ext window shows the same profile text exactly when the profile is a listed one
  (`SchedExt.ReopenShowsSame`). In the program it is: there the flags follow the selection and reopening
  changes nothing, in every session (`SchedExt.ProgramSessions`).

One place where the code and its documentation differ, modelled as the code has it: the comment on
`BuildState::in_flight` calls it the `m_running` projection, while it also covers the install
question, during which `m_running` is false (`BuildLifecycle.BuildSimulatesProcess` states both).

## Model

| member | source | states |
|---|---|---|
| KernelNames.MatchesHeadersNeedle | crates/cachyos-kernel-manager-core/src/kernel.rs:144-163 | the scan accepts exactly the names in which the regular expression `linux[^ ]*-headers` matches somewhere |
| KernelNames.FirstHeadersSuffices | crates/cachyos-kernel-manager-core/src/kernel.rs:150-158 | testing only the first "-headers" after a "linux" loses no match |
| KernelNames.AnyOrderSameEnd | crates/cachyos-kernel-manager-plan/src/lib.rs:371-376 | deleting occurrences one at a time, in any order, takes one deletion for every pattern's length lost and always ends in the same string |
| KernelNames.OnePassAgrees | crates/cachyos-kernel-manager-core/src/kernel.rs:169-174 | one-pass removal equals exhaustive removal if and only if it leaves no occurrence |
| KernelNames.SingleHeadersExactly | crates/cachyos-kernel-manager-core/src/kernel.rs:172-174 | on a name with one "-headers" the pass agrees with exhaustive removal if and only if the parts around it do not fit together to another |
| KernelNames.UsualNameExactly | crates/cachyos-kernel-manager-core/src/kernel.rs:169-174 | a kernel name followed by "-headers" gives the kernel name if and only if it contains no "-headers" itself |
| KernelNames.OnePassMayLeaveOne | crates/cachyos-kernel-manager-core/src/kernel.rs:172-174 | a name that discovery accepts and on which the pass leaves "-headers" behind |
| Discovery.StockCompanions | crates/cachyos-kernel-manager-core/src/discovery.rs:62-68 | the stock kernels' module names carry the suffix only |
| Discovery.DiscoverKernels | crates/cachyos-kernel-manager-core/src/discovery.rs:100-131 | the nested loop returns the kernels of the selecting positions |
| Discovery.DiscoveryExact | crates/cachyos-kernel-manager-core/src/discovery.rs:92-131 | discovery lists exactly the matching, non-API headers whose kernel is in the same database, each once, in database and package order |
| Discovery.DiscoveredPackagesExist | crates/cachyos-kernel-manager-core/src/discovery.rs:109-127 | kernel, headers and resolved companions all stand in the database the kernel is attributed to |
| Discovery.SelectsExactly | crates/cachyos-kernel-manager-core/src/discovery.rs:104-118 | a package yields a kernel exactly when the expression finds it, it is none of the API headers, and its name without "-headers" is a package of the same database |
| Discovery.RecordExactly | crates/cachyos-kernel-manager-core/src/discovery.rs:62-131 | what is recorded of a kernel: names, the version of its first package, and each module exactly when it has the right name and stands in the same database |
| Selection.SelectionState.ToggleRow | crates/cachyos-kernel-manager-core/src/selection.rs:96-104 | flips one checkbox, ignores a missing row, changes nothing else |
| Selection.SelectionState.ChangeList | crates/cachyos-kernel-manager-core/src/selection.rs:54-69 | the push/retain walk yields, in row order, the rows that ask for a change and have no later same-name row that does not |
| Selection.ChangesStep | crates/cachyos-kernel-manager-core/src/selection.rs:56-67 | one more row either appends its name or retracts all earlier entries of that name |
| Selection.EveryChangeActs | crates/cachyos-kernel-manager-core/src/selection.rs:71-93 | every change is installed or removed; with distinct names, both exactly for an installed row with an update |
| Selection.ChangesAreOddToggles | crates/cachyos-kernel-manager-core/src/selection.rs:43-104 | from fresh rows, after any presses, the change list is the oddly pressed rows (with duplicates: those whose later namesakes are oddly pressed too) |
| Selection.PressEach | crates/cachyos-kernel-manager-alpm/src/bin/plan.rs:262-271 | each press names a row by its raw name and flips the first such row; a name no row has ends the session |
| Selection.ChangesAreOddPresses | crates/cachyos-kernel-manager-ui/src/app.rs:897-907 | after any presses of fresh rows the change list is, in row order, the names pressed an odd number of times that only one row has |
| Planning.PlanFlavours | crates/cachyos-kernel-manager-plan/src/lib.rs:146-190 | over a whole plan a prebuilt NVIDIA module is installed exactly as the flavour of a selected repository kernel, and never next to a DKMS module |
| Planning.TransactionPlan.ExpandInstall | crates/cachyos-kernel-manager-plan/src/lib.rs:135-200 | appends [zfs?][one NVIDIA flavour?] kernel headers, flavour by the precedence table, and touches nothing else; the unwraps cannot fail |
| Planning.TransactionPlan.ExpandRemove | crates/cachyos-kernel-manager-plan/src/lib.rs:204-232 | appends the kernel, then its installed headers and companions in order |
| Planning.RemoveBlockExactly | crates/cachyos-kernel-manager-plan/src/lib.rs:204-232 | besides the kernel exactly the installed ones among its headers and companions are removed |
| Planning.RemoveBlockInOrder | crates/cachyos-kernel-manager-plan/src/lib.rs:204-232 | behind the kernel the installed ones of headers, ZFS, closed and open module, in that order |
| Planning.InstallBlockExactly | crates/cachyos-kernel-manager-plan/src/lib.rs:135-200 | a kernel is installed with exactly its ZFS module when root is on ZFS, the one NVIDIA module its cases call for, itself and its headers, in that order, each for its reason |
| Planning.PlanInstallsExactly | crates/cachyos-kernel-manager-plan/src/lib.rs:105-132 | over a whole plan the packages to install are exactly those some repository kernel is installed with |
| Planning.AurNamesExactly | crates/cachyos-kernel-manager-plan/src/lib.rs:112-123 | the AUR list is the names of the kernels of repository "aur", in order |
| Planning.TransactionPlan.FromSelection | crates/cachyos-kernel-manager-plan/src/lib.rs:105-132 | the plan is the concatenation of the blocks of the known kernels of the install and removal sets; AUR kernels go to their own list |
| Planning.CommitCommands | crates/cachyos-kernel-manager-plan/src/lib.rs:420-450 | the loop emits the commands of the plan |
| Planning.CommandsConserve | crates/cachyos-kernel-manager-plan/src/lib.rs:420-450 | what the commands ask pacman to install and to remove is exactly the plan, in order |
| Planning.CommandsInOrder | crates/cachyos-kernel-manager-plan/src/lib.rs:404-450 | each AUR build directly follows the refresh of its own directory; AUR first, then at most one install, then at most one removal; no AUR command when disabled |
| Planning.AurInOrder | crates/cachyos-kernel-manager-plan/src/lib.rs:422-437 | the AUR commands are the refresh and the build of each listed name without "headers", in list order, once per listing, and nothing else |
| Planning.CommandsExactly | crates/cachyos-kernel-manager-plan/src/lib.rs:420-450 | the whole command list: with AUR enabled the refresh and build of each buildable name with address and directory, then one install with `--needed`, then one removal |
| Provenance.PlanSession | crates/cachyos-kernel-manager-alpm/src/bin/plan.rs:218-356 | running discovery, presses by raw name, the two expansions - the module families probed again for each installed kernel - and commit in sequence emits the session's commands, or nothing when a pressed name is unknown |
| Provenance.SameAnswersSamePlan | crates/cachyos-kernel-manager-ui/src/app.rs:2032-2040 | with the same probe answers throughout this is the plan made from one set of facts |
| Provenance.RawsClashExactly | crates/cachyos-kernel-manager-core/src/discovery.rs:120-127 | two kernels share a raw name exactly when their databases share a name and they strip to one name, or one database name and a `/` swallow the start of the other kernel's name |
| Provenance.InstallProvenance | crates/cachyos-kernel-manager-plan/src/lib.rs:105-132 | every package of the install command belongs to the database of a selected kernel, never an "aur" one |
| Provenance.RowShown | crates/cachyos-kernel-manager-ui/src/main_window.rs:44-70 | what a kernel's row shows over whole sessions: installed, marked, updatable, and its checkbox after the presses |
| Provenance.SelectedExactly | crates/cachyos-kernel-manager-core/src/selection.rs:71-93 | a kernel reaches the install phase exactly when its sole row was pressed an odd number of times and it is absent or outdated, the removal phase exactly when it is then installed |
| Provenance.InstallOrder | crates/cachyos-kernel-manager-core/src/selection.rs:54-93 | the kernels to install are exactly those, in row order |
| Provenance.InstallsExactly | crates/cachyos-kernel-manager-plan/src/lib.rs:105-200 | the install command holds exactly the packages that a selected repository kernel is installed with, the n-th by the n-th probe answers |
| Provenance.SelectedInstalled | crates/cachyos-kernel-manager-plan/src/lib.rs:105-200 | every selected repository kernel is installed with its headers, and with its ZFS module when root is on ZFS |
| Provenance.RemovesExactly | crates/cachyos-kernel-manager-plan/src/lib.rs:125-232 | the removal command holds exactly the kernels to remove and their packages that are installed |
| Provenance.AurBuildsExactly | crates/cachyos-kernel-manager-plan/src/lib.rs:112-123 | the AUR builds are exactly those of the selected "aur" kernels without "headers" in the name |
| Provenance.RemovalsInstalledExactly | crates/cachyos-kernel-manager-plan/src/lib.rs:125-232 | the removal command names installed packages only, if and only if the kernels looked up for the removal set are installed |
| Provenance.SharedNeverSelected | crates/cachyos-kernel-manager-core/src/selection.rs:54-93 | a raw name that two kernels share reaches neither the change list nor a phase, whatever is pressed |
| Provenance.TwinsNeverSelected | crates/cachyos-kernel-manager-core/src/kernel.rs:169-174 | two headers packages that strip to one name make their kernel unselectable |
| Provenance.RemovalProvenance | crates/cachyos-kernel-manager-plan/src/lib.rs:112-132 | in every session with flags and facts from one local database every removed package is installed |
| Provenance.StaleRowsRemoveMissing | crates/cachyos-kernel-manager-ui/src/app.rs:2022-2035 | over any databases, a kernel with a raw name of its own that is gone from the local database between the rows and the plan is still named by the removal command |
| Provenance.StaleStockSession | crates/cachyos-kernel-manager-ui/src/app.rs:2022-2035 | such a session with the stock kernel |
| AurDiscovery.StripHeaders | crates/cachyos-kernel-manager-plan/src/lib.rs:372-376 | the editing loop terminates with the stripped name |
| AurDiscovery.DiscoverAur | crates/cachyos-kernel-manager-plan/src/lib.rs:340-402 | gates, probe decision and the rows of the new names |
| AurDiscovery.ReferenceDiscovery | tools/aur-oracle-ref/src/main.rs:117-148 | the loop with its list of seen names gives the same result on every input |
| AurDiscovery.NewIffUnnamed | crates/cachyos-kernel-manager-plan/src/lib.rs:387-396 | the test against repo and AUR rows so far is the test against repo names and earlier lines |
| AurDiscovery.AurRowsExact | crates/cachyos-kernel-manager-plan/src/lib.rs:366-401 | AUR names are fully stripped, distinct, disjoint from repo names, each row from the first line of its name and in line order, and every line's name is covered |
| AurDiscovery.LinesExactly | crates/cachyos-kernel-manager-plan/src/lib.rs:366-370 | the probe lines are exactly the non-empty pieces of the output, in order |
| AurDiscovery.LinesRoundTrip | crates/cachyos-kernel-manager-plan/src/lib.rs:366-370 | lines printed one below the other are read back |
| AurDiscovery.GatesExactly | crates/cachyos-kernel-manager-plan/src/lib.rs:340-386 | when the probe runs, when the message is given, and what a row records |
| AppState.Transition | crates/cachyos-kernel-manager-core/src/state.rs:368-520 | the event-by-event transition equals the component-by-component one, with its effects |
| AppState.RunsProject | crates/cachyos-kernel-manager-core/src/state.rs:368-520 | after any run a component's state and effects are those of its own events alone |
| AppState.InterleavingsAgree | crates/cachyos-kernel-manager-core/src/state.rs:368-520 | all interleavings of the same per-component runs end in the same state |
| AppRuns.WindowsFromStart | crates/cachyos-kernel-manager-core/src/state.rs:368-520 | over every run the Configure window, the sched-ext window and the lifecycle are what the last of their own events says |
| AppRuns.RowsTold | crates/cachyos-kernel-manager-core/src/state.rs:400-402 | over every run the rows are toggled as the events say, and options and dialog stay |
| AppRuns.EffectsCounted | crates/cachyos-kernel-manager-core/src/state.rs:368-520 | closing, showing, preparing, installing and refreshing happen exactly as often as they are asked for |
| AppRuns.EffectsOrdered | crates/cachyos-kernel-manager-core/src/state.rs:403-465 | every transaction directly follows its authentication and every build is of the chosen variant |
| AppRuns.PhaseExactly | crates/cachyos-kernel-manager-core/src/state.rs:283-333 | each phase shown holds exactly in its own states of the components |
| Pipeline.JobsMatchState | crates/cachyos-kernel-manager-core/src/state.rs:335-443 | over all runs with workers: one transaction job exactly while in progress, at most one refresh, pending exactly after a changed transaction, no discovery answer during a transaction |
| Pipeline.DispatchTells | crates/cachyos-kernel-manager-ui/src/app.rs:948-1007 | the transition, its dialog effects interpreted in order, and the message handler's own part together do what the message-by-message table says |
| Pipeline.SoftLockExactly | crates/cachyos-kernel-manager-ui/src/app.rs:2799-2810 | over all runs a non-idle transaction has an enabled answer if and only if it has not failed and lost its error dialog; each answer lowers the rank, and once idle Execute is enabled exactly when there are changes |
| Pipeline.LossExactly | crates/cachyos-kernel-manager-ui/src/app.rs:2759-2821 | the error dialog of a failed transaction is lost exactly when a build succeeds or Configure is pressed under it, until another error or a completed save |
| Pipeline.LostExactly | crates/cachyos-kernel-manager-ui/src/app.rs:2759-2821 | over all runs the dialog of a failure is lost exactly when it has not been dismissed since and, after the last error raised, another dialog has taken the slot |
| Pipeline.NoSoftLock | crates/cachyos-kernel-manager-core/src/state.rs:335-443 | in every run without those two a non-idle transaction has an enabled answer |
| Pipeline.SoftLockReached | crates/cachyos-kernel-manager-ui/src/app.rs:2759-2821 | a run from start-up to a failed transaction with no answer left and Execute disabled |
| Pipeline.QuestionLossExactly | crates/cachyos-kernel-manager-ui/src/app.rs:2759-2821 | a waiting build loses its install question exactly when another dialog or a dismissal takes the slot, and then for good |
| Pipeline.QuestionLostExactly | crates/cachyos-kernel-manager-ui/src/app.rs:2706-2821 | over all runs the question is lost exactly when it has not been answered since it was asked and something has covered it since |
| Pipeline.QuestionLossReached | crates/cachyos-kernel-manager-ui/src/app.rs:2706-2821 | such a run |
| Pipeline.AnswersBounded | crates/cachyos-kernel-manager-core/src/state.rs:403-443 | each press of Execute buys at most three answers over any run |
| Pipeline.AnswersDrain | crates/cachyos-kernel-manager-core/src/state.rs:386-443 | left to the workers and the error dialog every reachable system stops within its rank, with no job, and idle if and only if its error dialog was not lost before |
| Pipeline.ExecuteGuardExactly | crates/cachyos-kernel-manager-core/src/state.rs:335-411 | over all runs an unguarded Execute keeps the job accounting safe if and only if the catalog is loaded |
| Pipeline.UnguardedExecuteKnockedBack | crates/cachyos-kernel-manager-core/src/state.rs:386-411 | a run to a pending refresh in which it leads to an idle transaction with its job outstanding |
| Pipeline.PhaseTellsExecute | crates/cachyos-kernel-manager-core/src/state.rs:283-343 | the derived phase never names the unreachable states and announces a changed selection exactly when Execute is enabled |
| BuildLifecycle.FinishedProc | crates/cachyos-kernel-manager-exec/src/lib.rs:286-311 | the marker file decides, Yes starts the install, otherwise one failure line |
| BuildLifecycle.FinishExactly | crates/cachyos-kernel-manager-exec/src/lib.rs:286-311 | which outcome the marker and the answer give, with the exit code in the failure line only |
| BuildLifecycle.CommandReadsBack | crates/cachyos-kernel-manager-exec/src/lib.rs:172-178 | the install command splits into `sudo pacman -U` and the globs |
| BuildLifecycle.ConfigureTrace | crates/cachyos-kernel-manager-exec/src/lib.rs:356-388 | the first Execute starts, later ones are ignored, the first Cancel or Close ends the trace, and the build goes on |
| BuildLifecycle.BuildSimulatesProcess | crates/cachyos-kernel-manager-core/src/state.rs:127-142 | over all runs: running exactly in Running and Installing, at most one job, a marker exactly when touched and not cleared since or left over and never cleared, at most two completions per start |
| BuildLifecycle.CompletionIsOneCall | crates/cachyos-kernel-manager-exec/src/lib.rs:272-311 | completion and answer together are one call of the completion function |
| BuildLifecycle.ReportedTruthfullyExactly | crates/cachyos-kernel-manager-ui/src/app.rs:2407-2417 | over all runs with refreshes of builds and of Configure: a success is reported as one if and only if nothing cleared the marker since the touch, a failure if and only if no leftover marker survived uncleared |
| BuildLifecycle.LeftoverMarkerMisreports | crates/cachyos-kernel-manager-ui/src/app.rs:2283-2287 | a failing first build, with and without a leftover marker and a refresh that cleans it |
| BuildLifecycle.ConfigureHidesSuccess | crates/cachyos-kernel-manager-ui/src/app.rs:2205-2209 | a successful build with Configure opened before it is closed |
| BuildLifecycle.InstallReportsFailure | crates/cachyos-kernel-manager-exec/src/lib.rs:263-284 | the install's own completion always takes the failure branch |
| BuildLifecycle.InstallGuardExactly | crates/cachyos-kernel-manager-core/src/state.rs:473-476 | an install request keeps one job in flight if and only if no process runs |
| BuildLifecycle.InstallRequestDoubles | crates/cachyos-kernel-manager-core/src/state.rs:473-476 | a run in which it puts a second job in flight |
| BuildLifecycle.TraceAgrees | crates/cachyos-kernel-manager-exec/src/lib.rs:336-388 | the traced running flag is the program's build state on the same actions |
| PacmanConf.MiniIni.Parse | crates/cachyos-kernel-manager-alpm/src/pacman_conf.rs:57-121 | the sections are the document the text's facts describe, and the index is their exact inverse |
| PacmanConf.MiniIni.EnsureSection | crates/cachyos-kernel-manager-alpm/src/pacman_conf.rs:123-128 | adds an empty section unless present and keeps the index inverse |
| PacmanConf.MiniIni.SetValue | crates/cachyos-kernel-manager-alpm/src/pacman_conf.rs:130-137 | replaces or appends the value in that section only; the lookup cannot fail |
| PacmanConf.NamesMeaning | crates/cachyos-kernel-manager-alpm/src/pacman_conf.rs:38-45 | section names are distinct, exactly those mentioned, in order of first mention |
| PacmanConf.KeysMeaning | crates/cachyos-kernel-manager-alpm/src/pacman_conf.rs:130-137 | keys are distinct and exactly those assigned |
| PacmanConf.LastAssignmentWins | crates/cachyos-kernel-manager-alpm/src/pacman_conf.rs:130-137 | the last assignment wins, across duplicated sections too |
| PacmanConf.KeyEndsExactly | crates/cachyos-kernel-manager-alpm/src/pacman_conf.rs:100-107 | a key ends at the first `=` that no backslash precedes |
| PacmanConf.RegisteredOnce | crates/cachyos-kernel-manager-alpm/src/pacman_conf.rs:140-148 | registered databases are the sections but two, each once |
| PacmanText.HeaderExactly | crates/cachyos-kernel-manager-alpm/src/pacman_conf.rs:83-99 | a line opens a section exactly when it starts with `[` and a `]` stands before every `;`, and how its name is read |
| PacmanText.ListedReadsBack | crates/cachyos-kernel-manager-alpm/src/pacman_conf.rs:57-121 | a text that lists a document, with any spacing, case, comments and blank lines, and entries before the first section, is read as exactly that document |
| PacmanText.ReadBack | crates/cachyos-kernel-manager-alpm/src/pacman_conf.rs:57-121 | the parser object holds that document, index included |
| PacmanText.PrintReadsBack | crates/cachyos-kernel-manager-alpm/src/pacman_conf.rs:57-121 | parsing undoes printing for every clean document |
| PacmanText.RegisteredInOrder | crates/cachyos-kernel-manager-alpm/src/pacman_conf.rs:140-148 | the registered databases are the other sections' names, in order |
| Options.EnvString | crates/cachyos-kernel-manager-core/src/options.rs:642-648 | one `var=value` line per option variable, in order |
| Options.EnvAssignments | crates/cachyos-kernel-manager-build/src/lib.rs:334-348 | the loop reads the first two non-empty segments of each line |
| Options.RoundTripExactly | crates/cachyos-kernel-manager-build/src/lib.rs:324-348 | parsing undoes printing if and only if all names and values are non-empty and free of `=` and newline |
| Options.OptionsRoundTrip | crates/cachyos-kernel-manager-core/src/options.rs:598-648 | every option setting parses back to its variables |
| Options.EnvironmentSays | crates/cachyos-kernel-manager-core/src/options.rs:598-648 | what the build reads: each checkbox under its own variable as yes or no, each combo's value, processor and suffix only when they apply |
| Options.EnvironmentDetermines | crates/cachyos-kernel-manager-core/src/options.rs:598-648 | every option but variant, processor and custom name can be read off the environment |
| Pkgbuild.BuildSourceArray | crates/cachyos-kernel-manager-build/src/lib.rs:51-62 | the block of the old sources that are not patches, then the patches |
| Pkgbuild.BlockReadsBack | crates/cachyos-kernel-manager-build/src/lib.rs:51-62 | the block read line by line is the old sources that are not patches, then the patches, each in quotes |
| Pkgbuild.InsertBeforeMarkerChanged | crates/cachyos-kernel-manager-build/src/lib.rs:82-94 | inserts at the insertion point, or reports that there is none |
| Pkgbuild.PointExact | crates/cachyos-kernel-manager-build/src/lib.rs:64-94 | the insertion point is the last newline at or before the first marker |
| Pkgbuild.InsertExactly | crates/cachyos-kernel-manager-build/src/lib.rs:64-94 | an insertion stands right before the line of the first marker, or the marker has no line before it |
| Pkgbuild.InsertPatchSourceArray | crates/cachyos-kernel-manager-build/src/lib.rs:100-107 | the patch splice |
| Pkgbuild.InsertCustomPkgbase | crates/cachyos-kernel-manager-build/src/lib.rs:113-116 | the custom-name splice |
| Pkgbuild.InsertionsCommuteExactly | crates/cachyos-kernel-manager-build/src/lib.rs:82-94 | two insertions neutral to each other's marker commute if and only if one is void, the points differ, or the texts commute |
| Pkgbuild.SplicesCommuteExactly | crates/cachyos-kernel-manager-build/src/lib.rs:96-116 | the two splices, with any sources, patches and accepted name, commute if and only if one is void or the points differ, or - with the name marker inside the block - the block is void or goes in behind the text's marker |
| Pkgbuild.OneLineOrderShows | crates/cachyos-kernel-manager-build/src/lib.rs:96-116 | both markers on one line: the order shows whatever is spliced |
| Pkgbuild.PatchNamedLikeMarker | crates/cachyos-kernel-manager-build/src/lib.rs:96-116 | different points, but a patch named like the other marker |
| Pkgbuild.SafeNameIsNeutral | crates/cachyos-kernel-manager-build/src/lib.rs:157-167 | an accepted custom name never brings in the other splice's marker |
| TmpPaths.Mask | crates/cachyos-kernel-manager-casefile/src/normalize.rs:596-610 | the loop terminates with the masked text |
| TmpPaths.MaskedExactly | crates/cachyos-kernel-manager-casefile/src/normalize.rs:596-610 | everything outside the runs is kept in order, each run becomes X |
| TmpPaths.MaskCanonical | crates/cachyos-kernel-manager-casefile/src/normalize.rs:591-610 | masking is idempotent, and two texts mask alike if and only if they differ at most in the runs |
| TmpPaths.RunsDoNotMatter | crates/cachyos-kernel-manager-casefile/src/normalize.rs:591-610 | texts with the same chunks around arbitrary runs mask to the same text |
| ConfigureWindow.VariantSwitchState.SwitchTo | crates/cachyos-kernel-manager-core/src/options.rs:471-521 | the count-based handler, for any item lists |
| ConfigureWindow.SwitchesMeetTable | crates/cachyos-kernel-manager-core/src/options.rs:386-521 | after any switches the controls are the stateless table's for the last variant; ZFS survives exactly without Rt |
| ConfigureWindow.ConfigureWindowModel.OnVariantChanged | crates/cachyos-kernel-manager-ui/src/configure_window.rs:102-118 | switches the controls and replaces the patch list by the source array's patches |
| ConfigureWindow.PatchesExactly | crates/cachyos-kernel-manager-ui/src/configure_window.rs:109-118 | the patch list is the source array's patches, in order |
| ConfigureWindow.ConfigureWindowModel.LoadConfig | crates/cachyos-kernel-manager-ui/src/configure_window.rs:207-268 | applies what is found and reports outdated exactly when a combo value is unknown |
| ConfigureWindow.LoadExactly | crates/cachyos-kernel-manager-ui/src/configure_window.rs:207-268 | what any configuration does to any window: checkboxes from their own fields, combos only to offered values, nothing else |
| ConfigureWindow.LoadSavedExactly | crates/cachyos-kernel-manager-ui/src/configure_window.rs:180-268 | loading another window's configuration copies everything but unavailable LTO or preemption choices, and reports outdated exactly then |
| ConfigureWindow.SessionsReload | crates/cachyos-kernel-manager-ui/src/configure_window.rs:102-268 | after any session of switches, loads, picks and edits the combos offer the table's items for the variant shown, and saving and loading reports nothing and changes nothing |
| ConfigureWindow.OpenedWindowReloads | crates/cachyos-kernel-manager-ui/src/configure_window.rs:59-268 | the same for every session of the window as it opens |
| ConfigureWindow.SwitchedWindowsReload | crates/cachyos-kernel-manager-ui/src/configure_window.rs:102-268 | the same after any switches from any two variants' item lists |
| SchedExt.DefaultConfig | crates/cachyos-kernel-manager-scx/src/config.rs:232-256 | lists every scheduler with the built-in flags of every mode |
| SchedExt.FlagsExactly | crates/cachyos-kernel-manager-scx/src/config.rs:105-228 | a mode's configured flags count, else the built-in ones |
| SchedExt.WindowInit | crates/cachyos-kernel-manager-scx/src/window.rs:76-127 | the two failure traces and the steps of a successful initialisation |
| SchedExt.ScxWindowModel.FromInitSteps | crates/cachyos-kernel-manager-ui/src/scx_window.rs:46-100 | applies the steps in order up to the first critical one |
| SchedExt.ScxWindowModel.OnSchedChanged | crates/cachyos-kernel-manager-ui/src/scx_window.rs:105-113 | sets scheduler, profile visibility and flags |
| SchedExt.ScxWindowModel.OnProfileChanged | crates/cachyos-kernel-manager-ui/src/scx_window.rs:117-124 | sets profile and flags |
| SchedExt.InitShows | crates/cachyos-kernel-manager-ui/src/scx_window.rs:46-100 | a successful initialisation shows the configured scheduler, profile and flags |
| SchedExt.InitFails | crates/cachyos-kernel-manager-ui/src/scx_window.rs:46-100 | a failed initialisation shows its message in an untouched, disabled window |
| SchedExt.FlagsFollowSelection | crates/cachyos-kernel-manager-ui/src/scx_window.rs:46-124 | after any changes the flags field shows the selected scheduler's and profile's flags, exactly unless nothing was changed, no mode is configured and the first profile's flags are not Auto's |
| SchedExt.PlanApply | crates/cachyos-kernel-manager-scx/src/apply.rs:235-269 | switches by mode exactly when the arguments equal the mode's flags, with the service operations and the written configuration |
| SchedExt.FlagsRecoveredExactly | crates/cachyos-kernel-manager-scx/src/apply.rs:247-261 | joining, trimming and splitting returns the flags if and only if no flag holds a space and the ends are not blank |
| SchedExt.DefaultFlagsRecoverable | crates/cachyos-kernel-manager-scx/src/config.rs:175-197 | all built-in flag lists are recovered |
| SchedExt.ApplyUnmodified | crates/cachyos-kernel-manager-scx/src/window.rs:149-167 | an unmodified Apply after any session is a mode switch if and only if the mode's flags are recovered from the field |
| SchedExt.SpacedFlagNotRecovered | crates/cachyos-kernel-manager-scx/src/apply.rs:247-261 | a configuration with a space in a flag, applied unmodified, sends arguments |
| SchedExt.ReopenShowsSame | crates/cachyos-kernel-manager-scx/src/apply.rs:159-168 | reopening on the written configuration shows the same scheduler and flags, and the same profile if and only if it is a listed one |
| SchedExt.ProgramSessions | crates/cachyos-kernel-manager-ui/src/scx_window.rs:46-140 | from Auto and with listed profiles the flags follow the selection in every session, and reopening on what an Apply wrote changes nothing |

## Left out

- libalpm, D-Bus, process spawning, git and probe execution: foreign calls; their answers are parameters.
- The version comparison: any relation stands for it.
- TOML reading and writing: the configuration is a plain record.
- Rendering, translations, label tables, categories and version display: lookups without state.
- The path dialog and the overlay's click blocking: user input is allowed under any dialog, which covers more runs than the window lets happen.
- Termination of an in-flight build by closing the Configure window (crates/cachyos-kernel-manager-ui/src/app.rs:3203-3212): the model follows the exec crate, where the build goes on.
- The row names of the window (crates/cachyos-kernel-manager-ui/src/app.rs:2634), cut out of the raw name at its first two `/`: rows carry the kernel's name, as the plan tool's do.
- Builds of several variants in one session: each variant's directory has its own marker file, the model has one. A completion is taken to remove the file it found.
- `TransactionPlan.warnings` and `CommandPlan` variants that `commit_commands` never emits.
- The recursion of `normalize_tmp_paths` over JSON values: it applies the masking to each string.
- How the patch list is edited (add, remove, move) and the file dialogs: the session theorems take any resulting list.
- The witness rendering `apply_trace`, `disable_trace` and the disable plan: they follow the modelled decision.
- Byte positions: the patterns are ASCII, so character positions stand for them.
