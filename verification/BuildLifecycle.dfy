/** The Configure window's build: the program's build component beside the process lifecycle it
    stands for (crates/cachyos-kernel-manager-core/src/state.rs,
    crates/cachyos-kernel-manager-exec/src/lib.rs, crates/cachyos-kernel-manager-ui/src/app.rs). */
module BuildLifecycle {
  import opened Text
  import opened AppState
  import opened Runs

  // ---------- one process completion ----------

  datatype FinishEvent = FinishEvent(doneStatusExists: bool, exitCode: int, userChoice: Option<bool>, globs: seq<string>)

  datatype FinishOutcome = FinishOutcome(
    stdout: seq<string>, stderr: seq<string>, nextCommand: Option<string>, removesDoneStatus: bool, runningAfter: bool)

  function ArtifactInstallCommand(globs: seq<string>): string {
    "sudo pacman -U " + Join(globs, ' ')
  }

  predicate StartsInstall(e: FinishEvent) {
    e.doneStatusExists && e.userChoice == Some(true)
  }

  /** The marker file alone decides success; only success followed by Yes starts another process. */
  function Finish(e: FinishEvent): FinishOutcome {
    var cmd := ArtifactInstallCommand(e.globs);
    FinishOutcome(
      (if e.doneStatusExists then ["success"] else [])
      + (if StartsInstall(e) then ["pressed yes", "pacman_cmd := " + cmd] else []),
      if e.doneStatusExists then [] else ["process failed with exit code: " + DecimalInt(e.exitCode) + "\n"],
      if StartsInstall(e) then Some(cmd) else None,
      e.doneStatusExists,
      StartsInstall(e))
  }

  lemma CommandReadsBack(globs: seq<string>)
    requires globs != [] && forall glob | glob in globs :: ' ' !in glob
    ensures Split(ArtifactInstallCommand(globs), ' ') == ["sudo", "pacman", "-U"] + globs
  {
    var words := ["sudo", "pacman", "-U"] + globs;
    assert words[1..][1..][1..] == globs;
    assert Join(words[1..][1..], ' ') == "-U" + " " + Join(globs, ' ');
    assert Join(words[1..], ' ') == "pacman" + " " + ("-U" + " " + Join(globs, ' '));
    assert Join(words, ' ') == "sudo" + " " + ("pacman" + " " + ("-U" + " " + Join(globs, ' ')));
    assert Join(words, ' ') == ArtifactInstallCommand(globs);
    SplitJoin(words, ' ');
  }

  /** The exit code appears in the failure line only; the marker decides between the question's two
      answers and that line. */
  lemma FinishExactly(e: FinishEvent)
    ensures var o := Finish(e);
            && (o.removesDoneStatus <==> e.doneStatusExists) && ("success" in o.stdout <==> e.doneStatusExists)
            && (o.stderr == [] <==> e.doneStatusExists)
            && (!e.doneStatusExists ==> o.stdout == [] && o.stderr == ["process failed with exit code: " + DecimalInt(e.exitCode) + "\n"])
            && (o.runningAfter <==> e.doneStatusExists && e.userChoice == Some(true))
            && o.nextCommand == (if o.runningAfter then Some(ArtifactInstallCommand(e.globs)) else None)
            && (o.runningAfter <==> "pressed yes" in o.stdout)
  {
    var cmd := ArtifactInstallCommand(e.globs);
    assert ("pacman_cmd := " + cmd)[1] == 'a';
    assert "success"[1] == 'u' && "pressed yes"[1] == 'r';
    assert StartsInstall(e) ==> Finish(e).stdout == ["success", "pressed yes", "pacman_cmd := " + cmd];
    assert StartsInstall(e) ==> Finish(e).stdout[1] == "pressed yes";
    assert e.doneStatusExists ==> Finish(e).stdout[0] == "success";
  }

  method FinishedProc(event: FinishEvent) returns (outcome: FinishOutcome)
    ensures outcome == Finish(event)
  {
    outcome := FinishOutcome([], [], None, false, false);
    if event.doneStatusExists {
      outcome := outcome.(removesDoneStatus := true);
      outcome := outcome.(stdout := outcome.stdout + ["success"]);
      if event.userChoice == Some(true) {
        outcome := outcome.(stdout := outcome.stdout + ["pressed yes"]);
        var cmd := ArtifactInstallCommand(event.globs);
        outcome := outcome.(stdout := outcome.stdout + ["pacman_cmd := " + cmd]);
        outcome := outcome.(nextCommand := Some(cmd));
        outcome := outcome.(runningAfter := true);
      }
    } else {
      outcome := outcome.(stderr := outcome.stderr + ["process failed with exit code: " + DecimalInt(event.exitCode) + "\n"]);
    }
  }

  // ---------- window actions while no process completes ----------

  datatype ConfigureAction = Execute | Cancel | Close

  datatype TraceEntry = TraceEntry(action: ConfigureAction, outcome: string)

  /** How many actions the window receives: it is hidden by the first Cancel or Close. */
  function Received(actions: seq<ConfigureAction>): (n: nat)
    ensures n <= |actions|
    ensures forall i | 0 <= i < n - 1 :: actions[i] == Execute
    ensures n == |actions| || (n > 0 && actions[n - 1] != Execute)
  {
    if actions == [] then 0 else if actions[0] != Execute then 1 else 1 + Received(actions[1..])
  }

  method ConfigureTrace(actions: seq<ConfigureAction>) returns (trace: seq<TraceEntry>, running: bool)
    ensures |trace| == Received(actions)
    ensures forall i | 0 <= i < |trace| ::
              trace[i] == TraceEntry(actions[i], if actions[i] != Execute then "closed" else if i == 0 then "start" else "ignored")
    ensures running <==> |actions| > 0 && actions[0] == Execute
  {
    running, trace := false, [];
    var i := 0;
    while i < |actions|
      invariant 0 <= i <= |actions| && |trace| == i
      invariant Received(actions) == i + Received(actions[i..])
      invariant forall j | 0 <= j < i :: actions[j] == Execute && trace[j] == TraceEntry(Execute, if j == 0 then "start" else "ignored")
      invariant running <==> i > 0
    {
      var action := actions[i];
      assert actions[i..][1..] == actions[i + 1..];
      if action == Execute {
        if running {
          trace := trace + [TraceEntry(action, "ignored")];
        } else {
          running := true;
          trace := trace + [TraceEntry(action, "start")];
        }
      } else {
        trace := trace + [TraceEntry(action, "closed")];
        return;
      }
      i := i + 1;
    }
  }

  // ---------- program and processes side by side ----------

  /** How far the build's worker is: the refresh of the checkout comes first, then the build process,
      which touches the marker file when it has succeeded and then waits to be closed. */
  datatype Making = NotMaking | Refreshing | Compiling | Touched

  /** The process side: the running flag, whether the install question is up, the marker file, and the
      build's worker. */
  datatype Process = Process(running: bool, asking: bool, marker: bool, making: Making)

  /** `prepares` are the Configure workers that have not refreshed the checkout yet; `links` counts the
      completions since the last accepted Execute. */
  datatype System = System(app: State, builds: nat, installs: nat, prepares: nat, process: Process, links: nat)

  datatype Action =
    | PressExecute
    | HideWindow(cancel: bool)
    | BuildRefreshes(cleaned: bool)
    | BuildTouches
    | BuildAborts
    | BuildCompletes(exitCode: int)
    | PrepareRefreshes(cleaned: bool)
    | AnswerQuestion(yes: bool, globs: seq<string>)
    | InstallCompletes(exitCode: int)
    | OtherInput(event: Event)

  predicate Enabled(s: System, a: Action) {
    match a
    case PressExecute | HideWindow(_) => true
    case BuildRefreshes(_) => s.builds > 0 && s.process.making == Refreshing
    case BuildTouches => s.builds > 0 && s.process.making == Compiling
    case BuildAborts => s.builds > 0 && s.process.making != Touched
    case BuildCompletes(_) => s.builds > 0 && (s.process.making == Compiling || s.process.making == Touched)
    case PrepareRefreshes(_) => s.prepares > 0
    case AnswerQuestion(_, _) => s.app.build == AwaitingInstallDecision
    case InstallCompletes(_) => s.installs > 0
    case OtherInput(e) => Addressee(e) != OfBuild
  }

  /** The process side, by the completion function: the running flag is cleared before the question is
      asked; the question blocks the window. Refreshing the checkout removes an untracked marker,
      unless git fails or the checkout ignores the file. A build given up early leaves the marker as it
      is. */
  function ProcessStep(p: Process, a: Action): Process {
    match a
    case PressExecute => if p.asking || p.running then p else p.(running := true, making := Refreshing)
    case BuildRefreshes(cleaned) => p.(marker := p.marker && !cleaned, making := Compiling)
    case BuildTouches => p.(marker := true, making := Touched)
    case BuildAborts => p.(running := false, making := NotMaking)
    case BuildCompletes(exitCode) =>
      var outcome := Finish(FinishEvent(p.marker, exitCode, None, []));
      Process(outcome.runningAfter, p.marker, p.marker && !outcome.removesDoneStatus, NotMaking)
    case PrepareRefreshes(cleaned) => p.(marker := p.marker && !cleaned)
    case AnswerQuestion(yes, globs) =>
      p.(running := Finish(FinishEvent(p.asking, 0, Some(yes), globs)).runningAfter, asking := false)
    case InstallCompletes(exitCode) =>
      var outcome := Finish(FinishEvent(p.marker, exitCode, None, []));
      p.(running := outcome.runningAfter, asking := p.marker, marker := p.marker && !outcome.removesDoneStatus)
    case _ => p
  }

  /** What the program is told; the worker's own steps tell it nothing. */
  function EventOf(s: System, a: Action): Option<Event> {
    match a
    case PressExecute => Some(BuildRequested)
    case HideWindow(cancel) => Some(if cancel then ConfigurationCancelRequested else ConfigurationCloseRequested)
    case BuildRefreshes(_) | BuildTouches | PrepareRefreshes(_) => None
    case BuildAborts => Some(BuildFinished(false))
    case BuildCompletes(_) => Some(BuildFinished(s.process.marker))
    case AnswerQuestion(yes, _) => Some(if yes then InstallArtifactsRequested else InstallDeclined)
    case InstallCompletes(_) => Some(ArtifactsInstalled)
    case OtherInput(e) => Some(e)
  }

  function BuildJobs(effects: seq<Effect>): nat {
    if effects == [] then 0 else (if effects[0].RunBuild? then 1 else 0) + BuildJobs(effects[1..])
  }

  function InstallJobs(effects: seq<Effect>): nat {
    if effects == [] then 0 else (if effects[0].InstallArtifacts? then 1 else 0) + InstallJobs(effects[1..])
  }

  function PrepareJobs(effects: seq<Effect>): nat {
    if effects == [] then 0 else (if effects[0].PrepareConfiguration? then 1 else 0) + PrepareJobs(effects[1..])
  }

  function Dispatch(s: System, a: Action): System
    requires a.BuildAborts? || a.BuildCompletes? ==> s.builds > 0
    requires a.InstallCompletes? ==> s.installs > 0
    requires a.PrepareRefreshes? ==> s.prepares > 0
  {
    var e := EventOf(s, a);
    var effects := if e.Some? then Effects(s.app, e.value) else [];
    var built := a.BuildAborts? || a.BuildCompletes?;
    System(if e.Some? then Next(s.app, e.value) else s.app,
           s.builds - (if built then 1 else 0) + BuildJobs(effects),
           s.installs - (if a.InstallCompletes? then 1 else 0) + InstallJobs(effects),
           s.prepares - (if a.PrepareRefreshes? then 1 else 0) + PrepareJobs(effects),
           ProcessStep(s.process, a),
           if BuildJobs(effects) > 0 then 0 else s.links + (if built || a.InstallCompletes? then 1 else 0))
  }

  /** A marker file may be left over from an earlier session. */
  function Start(leftover: bool): System {
    System(INITIAL, 0, 0, 0, Process(false, false, leftover, NotMaking), 0)
  }

  predicate Legal(s: System, run: seq<Action>)
    decreases |run|
  {
    run == [] || (Enabled(s, run[0]) && Legal(Dispatch(s, run[0]), run[1..]))
  }

  function After(s: System, run: seq<Action>): System
    requires Legal(s, run)
    decreases |run|
  {
    if run == [] then s else After(Dispatch(s, run[0]), run[1..])
  }

  predicate Inv(s: System) {
    && (s.process.running <==> s.app.build.BuildRunning? || s.app.build.Installing?)
    && (s.process.asking <==> s.app.build.AwaitingInstallDecision?)
    && (s.process.making != NotMaking <==> s.app.build.BuildRunning?)
    && (s.process.marker ==> s.app.build.BuildIdle? || s.app.build.BuildRunning? || s.app.build.BuildFailed?)
    && s.builds == (if s.app.build.BuildRunning? then 1 else 0)
    && s.installs == (if s.app.build.Installing? then 1 else 0)
    && match s.app.build
       case BuildRunning => s.links == 0
       case BuildIdle => s.links <= 2
       case _ => s.links == 1
  }

  /** Only build events hand out build or install jobs. */
  lemma JobsOf(s: State, e: Event)
    ensures BuildJobs(Effects(s, e)) == (if e.BuildRequested? && !s.build.InFlight() then 1 else 0)
    ensures InstallJobs(Effects(s, e)) == (if e.InstallArtifactsRequested? then 1 else 0)
    ensures PrepareJobs(Effects(s, e)) == (if e.ConfigureRequested? then 1 else 0)
  {
    var fx := Effects(s, e);
    if |fx| > 0 {
      var rest := fx[1..];
      if |rest| > 0 {
        assert rest[1..] == [];
        assert BuildJobs(rest) == (if rest[0].RunBuild? then 1 else 0);
        assert InstallJobs(rest) == (if rest[0].InstallArtifacts? then 1 else 0);
        assert PrepareJobs(rest) == (if rest[0].PrepareConfiguration? then 1 else 0);
      }
    }
  }

  lemma StepInv(s: System, a: Action)
    requires Inv(s) && Enabled(s, a)
    ensures Inv(Dispatch(s, a))
  {
    if EventOf(s, a).Some? {
      JobsOf(s.app, EventOf(s, a).value);
    }
    hide Effects;
  }

  predicate Touches(a: Action) {
    a.BuildTouches?
  }

  predicate Completes(a: Action) {
    a.BuildCompletes?
  }

  /** What removes the marker: a completed build, and a refresh that cleans. */
  predicate Clears(a: Action) {
    a.BuildCompletes? || (a.BuildRefreshes? && a.cleaned) || (a.PrepareRefreshes? && a.cleaned)
  }

  /** Simulation over all runs: the running flag is set exactly while a build or an install runs,
      at most one of them is in flight, the marker is there exactly when it was touched and not cleared
      since, or left over and never cleared, and a chain of completions has at most two links. */
  lemma {:induction false} BuildSimulatesProcess(s: System, run: seq<Action>)
    requires Inv(s) && Legal(s, run)
    ensures var t := After(s, run);
            && Inv(t)
            && (t.process.running <==> t.app.build == BuildRunning || t.app.build == Installing)
            && t.builds + t.installs == (if t.process.running then 1 else 0)
            && (t.app.build.InFlight() <==> t.process.running || t.process.asking)
            && (t.process.marker <==> Holds(s.process.marker, run, Touches, Clears))
            && (t.process.making == Touched <==> Holds(s.process.making == Touched, run, Touches, Completes))
            && t.links <= 2
    decreases |run|
  {
    if run != [] {
      var a := run[0];
      StepInv(s, a);
      BuildSimulatesProcess(Dispatch(s, a), run[1..]);
      HoldsStep(s.process.marker, run, Touches, Clears);
      HoldsStep(s.process.making == Touched, run, Touches, Completes);
      StepMarker(s, a);
      hide Dispatch, Holds, Enabled;
    }
  }

  lemma StepMarker(s: System, a: Action)
    requires Inv(s) && Enabled(s, a)
    ensures var t := Dispatch(s, a);
            && (t.process.marker <==> Touches(a) || (s.process.marker && !Clears(a)))
            && (t.process.making == Touched <==> Touches(a) || (s.process.making == Touched && !Completes(a)))
  {
    hide Next, Effects, BuildJobs, InstallJobs, PrepareJobs;
  }

  lemma StartInv(leftover: bool)
    ensures Inv(Start(leftover))
  {
  }

  /** Completion and answer, taken together, are one call of the completion function. */
  lemma CompletionIsOneCall(s: System, exitCode: int, yes: bool, globs: seq<string>)
    requires Inv(s) && Enabled(s, BuildCompletes(exitCode))
    ensures var found := s.process.marker;
            var t := Dispatch(s, BuildCompletes(exitCode));
            var outcome := Finish(FinishEvent(found, exitCode, if found then Some(yes) else None, globs));
            && (found <==> Enabled(t, AnswerQuestion(yes, globs)))
            && (!found ==> t.app.build == BuildFailed && t.process.running == outcome.runningAfter)
            && (found ==>
                  var u := Dispatch(t, AnswerQuestion(yes, globs));
                  u.process.running == outcome.runningAfter
                  && (u.app.build == Installing <==> outcome.nextCommand.Some?)
                  && (u.app.build == BuildIdle <==> outcome.nextCommand.None?))
  {
    JobsOf(s.app, BuildFinished(s.process.marker));
    var t := Dispatch(s, BuildCompletes(exitCode));
    JobsOf(t.app, InstallArtifactsRequested);
    JobsOf(t.app, InstallDeclined);
  }

  // ---------- is a build reported as it went? ----------

  /** Nothing has cleared the marker since it was last touched. */
  ghost predicate Undisturbed(run: seq<Action>) {
    forall i | 0 <= i < |run| && Clears(run[i]) :: exists j :: i < j < |run| && Touches(run[j])
  }

  /** Nothing has cleared the marker in the whole run. */
  predicate NeverCleared(run: seq<Action>) {
    forall a | a in run :: !Clears(a)
  }

  lemma {:induction false} TouchedAndThere(leftover: bool, run: seq<Action>)
    requires Holds(false, run, Touches, Completes)
    ensures Holds(leftover, run, Touches, Clears) <==> Undisturbed(run)
  {
    if Undisturbed(run) {
      var last := LastOf(run, Touches);
      assert forall j | last < j < |run| :: !Clears(run[j]);
    }
  }

  lemma {:induction false} UntouchedAndThere(leftover: bool, run: seq<Action>)
    requires !Holds(false, run, Touches, Completes)
    ensures Holds(leftover, run, Touches, Clears) <==> leftover && NeverCleared(run)
  {
    assert NeverCleared(run) <==> forall i | 0 <= i < |run| :: !Clears(run[i]);
  }

  /** A completed build is reported as it went - a successful one exactly when nothing has cleared the
      marker since it touched it, a failed one exactly unless a leftover marker has not been cleared in
      the whole session. */
  lemma {:induction false} ReportedTruthfullyExactly(leftover: bool, run: seq<Action>, exitCode: int)
    requires Legal(Start(leftover), run) && Enabled(After(Start(leftover), run), BuildCompletes(exitCode))
    ensures var s := After(Start(leftover), run);
            var succeeded, t := s.process.making == Touched, Dispatch(s, BuildCompletes(exitCode));
            && t.app.build == (if s.process.marker then AwaitingInstallDecision else BuildFailed)
            && ((t.app.build == AwaitingInstallDecision <==> succeeded)
                <==> if succeeded then Undisturbed(run) else !(leftover && NeverCleared(run)))
  {
    var s := After(Start(leftover), run);
    StartInv(leftover);
    BuildSimulatesProcess(Start(leftover), run);
    if s.process.making == Touched {
      TouchedAndThere(leftover, run);
    } else {
      UntouchedAndThere(leftover, run);
    }
    ReportIsMarker(s, exitCode);
    hide Holds, Dispatch, Undisturbed, NeverCleared, Legal, After;
  }

  lemma ReportIsMarker(s: System, exitCode: int)
    requires Enabled(s, BuildCompletes(exitCode))
    ensures Dispatch(s, BuildCompletes(exitCode)).app.build
            == (if s.process.marker then AwaitingInstallDecision else BuildFailed)
  {
  }

  // ---------- sessions that show the conditions are needed ----------

  lemma {:induction false} RunSnoc(s: System, run: seq<Action>, a: Action)
    requires Legal(s, run) && Enabled(After(s, run), a)
    ensures Legal(s, run + [a]) && After(s, run + [a]) == Dispatch(After(s, run), a)
    decreases |run|
  {
    hide Dispatch;
    if run != [] {
      assert (run + [a])[1..] == run[1..] + [a];
      RunSnoc(Dispatch(s, run[0]), run[1..], a);
    }
  }

  /** One more step, and what it leaves behind. */
  lemma Extend(leftover: bool, run: seq<Action>, a: Action) returns (longer: seq<Action>, t: System)
    requires Legal(Start(leftover), run) && Enabled(After(Start(leftover), run), a)
    ensures longer == run + [a] && Legal(Start(leftover), longer) && t == After(Start(leftover), longer)
    ensures var s := After(Start(leftover), run);
            var e := EventOf(s, a);
            && t.process == ProcessStep(s.process, a)
            && t.app.build == (if e.Some? then BuildStep(s.app.build, e.value) else s.app.build)
            && t.builds == s.builds + (if a.PressExecute? && !s.app.build.InFlight() then 1 else 0)
                           - (if a.BuildAborts? || a.BuildCompletes? then 1 else 0)
            && t.prepares == s.prepares + (if a == OtherInput(ConfigureRequested) then 1 else 0)
                             - (if a.PrepareRefreshes? then 1 else 0)
  {
    longer := run + [a];
    RunSnoc(Start(leftover), run, a);
    t := After(Start(leftover), longer);
    var s := After(Start(leftover), run);
    if EventOf(s, a).Some? {
      JobsOf(s.app, EventOf(s, a).value);
    }
    hide Legal, After, Effects, ProcessStep, BuildStep;
  }

  lemma {:induction false} BuildCompiles(leftover: bool, cleaned: bool) returns (run: seq<Action>, t: System)
    ensures run == [PressExecute, BuildRefreshes(cleaned)]
    ensures Legal(Start(leftover), run) && t == After(Start(leftover), run)
    ensures t.process == Process(true, false, leftover && !cleaned, Compiling) && t.app.build == BuildRunning && t.builds == 1
  {
    run, t := Extend(leftover, [], PressExecute);
    hide Legal, After, Finish;
    run, t := Extend(leftover, run, BuildRefreshes(cleaned));
  }

  /** A failing first build. A leftover marker that its own refresh fails to clean makes it a success. */
  lemma {:induction false} LeftoverMarkerMisreports(leftover: bool, cleaned: bool, exitCode: int) returns (run: seq<Action>)
    ensures run == [PressExecute, BuildRefreshes(cleaned), BuildCompletes(exitCode)]
    ensures Legal(Start(leftover), run)
    ensures After(Start(leftover), run).app.build == (if leftover && !cleaned then AwaitingInstallDecision else BuildFailed)
  {
    var t;
    hide Legal, After, Finish;
    run, t := BuildCompiles(leftover, cleaned);
    run, t := Extend(leftover, run, BuildCompletes(exitCode));
  }

  lemma {:induction false} BuildSucceeds(leftover: bool, first: bool) returns (run: seq<Action>, t: System)
    ensures run == [PressExecute, BuildRefreshes(first), BuildTouches]
    ensures Legal(Start(leftover), run) && t == After(Start(leftover), run)
    ensures t.process == Process(true, false, true, Touched) && t.app.build == BuildRunning && t.builds == 1
  {
    hide Legal, After, Finish;
    run, t := BuildCompiles(leftover, first);
    run, t := Extend(leftover, run, BuildTouches);
  }

  /** A successful build. Configure, opened while its terminal waits to be closed, makes it a failure
      when the refresh that belongs to it cleans the checkout. */
  lemma {:induction false} ConfigureHidesSuccess(leftover: bool, first: bool, cleaned: bool) returns (run: seq<Action>)
    ensures run == [PressExecute, BuildRefreshes(first), BuildTouches]
                   + [OtherInput(ConfigureRequested), PrepareRefreshes(cleaned), BuildCompletes(0)]
    ensures Legal(Start(leftover), run)
    ensures After(Start(leftover), run).app.build == (if cleaned then BuildFailed else AwaitingInstallDecision)
  {
    var t;
    hide Legal, After, Finish;
    run, t := BuildSucceeds(leftover, first);
    run, t := Extend(leftover, run, OtherInput(ConfigureRequested));
    run, t := Extend(leftover, run, PrepareRefreshes(cleaned));
    run, t := Extend(leftover, run, BuildCompletes(0));
  }

  /** The second link is always reported as a failure, with exit code 0 as well. */
  lemma {:induction false} InstallReportsFailure(
      leftover: bool, run: seq<Action>, exitCode: int, choice: Option<bool>, globs: seq<string>)
    requires Legal(Start(leftover), run) && After(Start(leftover), run).app.build == Installing
    ensures var outcome := Finish(FinishEvent(After(Start(leftover), run).process.marker, exitCode, choice, globs));
            outcome.stdout == [] && |outcome.stderr| == 1 && !outcome.runningAfter
  {
    StartInv(leftover);
    BuildSimulatesProcess(Start(leftover), run);
  }

  /** `transition` accepts an install request in any state; it keeps a single job in flight exactly
      when no process is running. */
  lemma InstallGuardExactly(s: System)
    requires Inv(s)
    ensures InstallJobs(Effects(s.app, InstallArtifactsRequested)) + s.builds + s.installs <= 1
            <==> !s.process.running
  {
    JobsOf(s.app, InstallArtifactsRequested);
  }

  /** An install request while a build runs puts a second job in flight. */
  lemma {:induction false} InstallRequestDoubles(leftover: bool) returns (run: seq<Action>)
    ensures run == [PressExecute] && Legal(Start(leftover), run)
    ensures var s := After(Start(leftover), run);
            s.process.running && InstallJobs(Effects(s.app, InstallArtifactsRequested)) + s.builds == 2
  {
    var s;
    run, s := Extend(leftover, [], PressExecute);
    JobsOf(s.app, InstallArtifactsRequested);
  }

  function WindowAction(a: ConfigureAction): Action {
    match a
    case Execute => PressExecute
    case Cancel => HideWindow(true)
    case Close => HideWindow(false)
  }

  function WindowRun(actions: seq<ConfigureAction>): seq<Action> {
    seq(|actions|, i requires 0 <= i < |actions| => WindowAction(actions[i]))
  }

  /** While no process completes, window actions start one build and nothing stops it: not a second
      Execute, not closing the window. */
  lemma {:induction false} WindowActionsKeepBuild(s: System, actions: seq<ConfigureAction>)
    requires Inv(s) && !s.process.asking
    ensures Legal(s, WindowRun(actions))
    ensures After(s, WindowRun(actions)).process.running <==> s.process.running || Execute in actions
    decreases |actions|
  {
    if actions != [] {
      var a, rest := WindowAction(actions[0]), actions[1..];
      assert WindowRun(actions)[1..] == WindowRun(rest);
      StepInv(s, a);
      WindowActionsKeepBuild(Dispatch(s, a), rest);
    }
  }

  /** The traced flag is the program's: the program, given the actions the window receives, runs a
      build exactly when the trace says so. */
  method TraceAgrees(actions: seq<ConfigureAction>, ghost leftover: bool) returns (running: bool)
    ensures var start, run := Start(leftover), WindowRun(actions[..Received(actions)]);
            Legal(start, run) && (running <==> After(start, run).app.build == BuildRunning)
  {
    var trace, flag := ConfigureTrace(actions);
    running := flag;
    ghost var start := Start(leftover);
    StartInv(leftover);
    ghost var received := actions[..|trace|];
    WindowActionsKeepBuild(start, received);
    BuildSimulatesProcess(start, WindowRun(received));
    NoInstallWithoutAnswer(start, received);
    if |trace| > 0 {
      assert received[0] == actions[0];
    }
  }

  lemma {:induction false} NoInstallWithoutAnswer(s: System, actions: seq<ConfigureAction>)
    requires Inv(s) && !s.process.asking && s.app.build != Installing
    requires Legal(s, WindowRun(actions))
    ensures After(s, WindowRun(actions)).app.build != Installing
    decreases |actions|
  {
    if actions != [] {
      var a, rest := WindowAction(actions[0]), actions[1..];
      assert WindowRun(actions)[1..] == WindowRun(rest);
      StepInv(s, a);
      NoInstallWithoutAnswer(Dispatch(s, a), rest);
    }
  }
}
