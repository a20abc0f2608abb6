/** What whole runs of the application state machine do, read off the events alone
    (crates/cachyos-kernel-manager-core/src/state.rs). */
module AppRuns {
  import opened AppState
  import opened Runs
  import opened Sequences
  import Selection

  // ---------- the windows and the lifecycle ----------

  predicate Asks(e: Event) {
    e == ConfigureRequested
  }

  predicate Prepares(e: Event) {
    e == ConfigurePrepared
  }

  predicate Closes(e: Event) {
    e == ConfigurationCancelRequested || e == ConfigurationCloseRequested
  }

  predicate AsksOrCloses(e: Event) {
    Asks(e) || Closes(e)
  }

  predicate PreparesOrCloses(e: Event) {
    Prepares(e) || Closes(e)
  }

  predicate AsksOrPrepares(e: Event) {
    Asks(e) || Prepares(e)
  }

  /** The Configure window is in preparation, open or closed as the last of its events says. */
  lemma {:induction false} ConfigurationTold(s: State, events: seq<Event>)
    ensures var was, now := s.configuration, Run(s, events).configuration;
            && (now == Preparing <==> Holds(was == Preparing, events, Asks, PreparesOrCloses))
            && (now == Editing <==> Holds(was == Editing, events, Prepares, AsksOrCloses))
            && (now == Closed <==> Holds(was == Closed, events, Closes, AsksOrPrepares))
    decreases |events|
  {
    if events != [] {
      HoldsStep(s.configuration == Preparing, events, Asks, PreparesOrCloses);
      HoldsStep(s.configuration == Editing, events, Prepares, AsksOrCloses);
      HoldsStep(s.configuration == Closed, events, Closes, AsksOrPrepares);
      hide Holds;
      ConfigurationTold(Next(s, events[0]), events[1..]);
    }
  }

  predicate Shows(e: Event) {
    e == ScxShowRequested
  }

  predicate Hides(e: Event) {
    e == ScxWindowClosed
  }

  lemma {:induction false} ScxTold(s: State, events: seq<Event>)
    ensures Run(s, events).scx == Visible <==> Holds(s.scx == Visible, events, Shows, Hides)
    decreases |events|
  {
    if events != [] {
      HoldsStep(s.scx == Visible, events, Shows, Hides);
      hide Holds;
      ScxTold(Next(s, events[0]), events[1..]);
    }
  }

  predicate Starts(e: Event) {
    e == Started
  }

  predicate Discovers(e: Event) {
    e == DiscoveryFinished
  }

  predicate Quits(e: Event) {
    e == CloseRequested
  }

  predicate DiscoversOrQuits(e: Event) {
    Discovers(e) || Quits(e)
  }

  predicate StartsOrQuits(e: Event) {
    Starts(e) || Quits(e)
  }

  predicate StartsOrDiscovers(e: Event) {
    Starts(e) || Discovers(e)
  }

  /** The lifecycle is what the last of its events says; a discovery undoes even a shutdown. */
  lemma {:induction false} LifecycleTold(s: State, events: seq<Event>)
    ensures var was, now := s.lifecycle, Run(s, events).lifecycle;
            && (now == KernelDiscovery <==> Holds(was == KernelDiscovery, events, Starts, DiscoversOrQuits))
            && (now == Ready <==> Holds(was == Ready, events, Discovers, StartsOrQuits))
            && (now == Shutdown <==> Holds(was == Shutdown, events, Quits, StartsOrDiscovers))
    decreases |events|
  {
    if events != [] {
      HoldsStep(s.lifecycle == KernelDiscovery, events, Starts, DiscoversOrQuits);
      HoldsStep(s.lifecycle == Ready, events, Discovers, StartsOrQuits);
      HoldsStep(s.lifecycle == Shutdown, events, Quits, StartsOrDiscovers);
      hide Holds;
      LifecycleTold(Next(s, events[0]), events[1..]);
    }
  }

  /** From the start: closed, hidden, and in start-up until told otherwise. */
  lemma {:induction false} WindowsFromStart(events: seq<Event>)
    ensures var t := Run(INITIAL, events);
            && (t.configuration == Editing <==> Holds(false, events, Prepares, AsksOrCloses))
            && (t.configuration == Preparing <==> Holds(false, events, Asks, PreparesOrCloses))
            && (t.configuration == Closed <==> Holds(true, events, Closes, AsksOrPrepares))
            && (t.scx == Visible <==> Holds(false, events, Shows, Hides))
            && (t.lifecycle == Ready <==> Holds(false, events, Discovers, StartsOrQuits))
            && (t.lifecycle == KernelDiscovery <==> Holds(false, events, Starts, DiscoversOrQuits))
            && (t.lifecycle == Shutdown <==> Holds(false, events, Quits, StartsOrDiscovers))
  {
    ConfigurationTold(INITIAL, events);
    ScxTold(INITIAL, events);
    LifecycleTold(INITIAL, events);
    hide Holds, Run;
  }

  // ---------- rows, options and dialogs ----------

  /** The rows toggled, in order. */
  function Toggles(events: seq<Event>): seq<nat> {
    if events == [] then []
    else (if events[0].KernelToggled? then [events[0].row] else []) + Toggles(events[1..])
  }

  lemma {:induction false} ToggleFirst(rows: seq<Selection.KernelRow>, i: nat, rest: seq<nat>)
    ensures Selection.ToggleAll(rows, [i] + rest) == Selection.ToggleAll(Selection.Toggle(rows, i), rest)
  {
    hide Selection.Toggle;
    if rest == [] {
      assert ([i] + rest)[..0] == [];
    } else {
      var n := |rest| - 1;
      assert ([i] + rest)[..|rest|] == [i] + rest[..n];
      ToggleFirst(rows, i, rest[..n]);
    }
  }

  /** A run leaves the rows as the toggles make them, and never touches the options or the dialog. */
  lemma {:induction false} RowsTold(s: State, events: seq<Event>)
    ensures var t := Run(s, events);
            t.rows == Selection.ToggleAll(s.rows, Toggles(events)) && t.buildOptions == s.buildOptions && t.dialogs == s.dialogs
    decreases |events|
  {
    hide Selection.Toggle;
    if events != [] {
      RowsTold(Next(s, events[0]), events[1..]);
      if events[0].KernelToggled? {
        ToggleFirst(s.rows, events[0].row, Toggles(events[1..]));
      } else {
        assert [] + Toggles(events[1..]) == Toggles(events[1..]);
      }
    }
  }

  // ---------- effects ----------

  /** All effects of a run, in order. */
  function AllEffects(s: State, events: seq<Event>): seq<Effect>
    decreases |events|
  {
    if events == [] then [] else Effects(s, events[0]) + AllEffects(Next(s, events[0]), events[1..])
  }

  predicate Exits(e: Effect) {
    e == CloseWindow
  }

  predicate OpensScx(e: Effect) {
    e == ShowScxWindow
  }

  predicate PreparesWindow(e: Effect) {
    e == PrepareConfiguration
  }

  predicate Installs(e: Effect) {
    e == InstallArtifacts
  }

  predicate Refreshes(e: Effect) {
    e == RefreshKernels
  }

  predicate AsksInstall(e: Event) {
    e == InstallArtifactsRequested
  }

  predicate NeedsRefresh(e: Event) {
    e == Started || e == TransactionFinished(true)
  }

  lemma TallyShort(effects: seq<Effect>, kind: Effect -> bool)
    requires |effects| <= 2
    ensures Tally(effects, kind) == (if |effects| > 0 && kind(effects[0]) then 1 else 0) + (if |effects| > 1 && kind(effects[1]) then 1 else 0)
  {
    if |effects| > 0 {
      var rest := effects[1..];
      assert |rest| > 0 ==> rest[0] == effects[1] && rest[1..] == [];
      assert Tally(rest, kind) == if |rest| > 0 && kind(rest[0]) then 1 else 0;
    }
  }

  lemma WindowTallies(s: State, e: Event)
    ensures var fx := Effects(s, e);
            && Tally(fx, Exits) == (if Quits(e) then 1 else 0) && Tally(fx, OpensScx) == (if Shows(e) then 1 else 0)
            && Tally(fx, PreparesWindow) == (if Asks(e) then 1 else 0)
  {
    hide Tally;
    var fx := Effects(s, e);
    TallyShort(fx, Exits);
    TallyShort(fx, OpensScx);
    TallyShort(fx, PreparesWindow);
  }

  lemma WorkTallies(s: State, e: Event)
    ensures var fx := Effects(s, e);
            Tally(fx, Installs) == (if AsksInstall(e) then 1 else 0) && Tally(fx, Refreshes) == (if NeedsRefresh(e) then 1 else 0)
  {
    hide Tally;
    var fx := Effects(s, e);
    TallyShort(fx, Installs);
    TallyShort(fx, Refreshes);
  }

  /** Each of these effects happens as often as it is asked for. */
  lemma {:induction false} EffectsCounted(s: State, events: seq<Event>)
    ensures var fx := AllEffects(s, events);
            && Tally(fx, Exits) == Tally(events, Quits) && Tally(fx, OpensScx) == Tally(events, Shows)
            && Tally(fx, PreparesWindow) == Tally(events, Asks) && Tally(fx, Installs) == Tally(events, AsksInstall)
            && Tally(fx, Refreshes) == Tally(events, NeedsRefresh)
    decreases |events|
  {
    if events != [] {
      var here, rest := Effects(s, events[0]), AllEffects(Next(s, events[0]), events[1..]);
      WindowTallies(s, events[0]);
      WorkTallies(s, events[0]);
      EffectsCounted(Next(s, events[0]), events[1..]);
      TallyAppend(here, rest, Exits);
      TallyAppend(here, rest, OpensScx);
      TallyAppend(here, rest, PreparesWindow);
      TallyAppend(here, rest, Installs);
      TallyAppend(here, rest, Refreshes);
      hide Effects, Next;
    }
  }

  /** A transaction starts right after its authentication, and none is authenticated without one. */
  predicate Authenticated(fx: seq<Effect>) {
    && (forall i | 0 <= i < |fx| && fx[i] == RunTransaction :: i > 0 && fx[i - 1] == Authenticate)
    && (forall i | 0 <= i < |fx| && fx[i] == Authenticate :: i + 1 < |fx| && fx[i + 1] == RunTransaction)
  }

  lemma AuthenticatedAppend(a: seq<Effect>, b: seq<Effect>)
    requires Authenticated(a) && Authenticated(b)
    ensures Authenticated(a + b)
  {
    var c := a + b;
    assert forall i | 0 <= i < |b| :: c[|a| + i] == b[i];
    forall i | 0 <= i < |c| && c[i] == RunTransaction ensures i > 0 && c[i - 1] == Authenticate {
      if i >= |a| {
        assert b[i - |a|] == RunTransaction;
      }
    }
    forall i | 0 <= i < |c| && c[i] == Authenticate ensures i + 1 < |c| && c[i + 1] == RunTransaction {
      if i >= |a| {
        assert b[i - |a|] == Authenticate;
      }
    }
  }

  lemma {:induction false} EffectsOrdered(s: State, events: seq<Event>)
    ensures Authenticated(AllEffects(s, events))
    ensures forall e | e in AllEffects(s, events) && e.RunBuild? :: e.variantDir == s.buildOptions.variant.DirName()
    decreases |events|
  {
    if events != [] {
      var here := Effects(s, events[0]);
      EffectsOrdered(Next(s, events[0]), events[1..]);
      assert Authenticated(here);
      AuthenticatedAppend(here, AllEffects(Next(s, events[0]), events[1..]));
    }
  }

  // ---------- the phase shown ----------

  /** What each phase shown says about the components: the lifecycle comes first, then the transaction,
      then the Configure window with its build, then the sched-ext window, then the catalog. */
  lemma PhaseExactly(s: State)
    ensures var p, r := s.Phase(), s.lifecycle == Ready;
            var idle := r && s.transaction == Idle;
            var editing, plain := idle && s.configuration == Editing, idle && s.configuration == Closed && s.scx == Hidden;
            && (p == PhaseStartup <==> s.lifecycle == Startup) && (p == PhaseShutdown <==> s.lifecycle == Shutdown)
            && (p == PhaseTransactionPlanning <==> r && s.transaction == Planning)
            && (p == PhaseTransactionRunning <==> r && s.transaction == Running)
            && (p == PhaseTransactionFailed <==> r && s.transaction == Failed)
            && (p == PhaseConfigurationPreparation <==> idle && s.configuration == Preparing)
            && (p == PhaseConfigurationEditing <==> editing && s.build == BuildIdle)
            && (p == PhaseBuildRunning <==> editing && s.build == BuildRunning)
            && (p == PhaseBuildFailed <==> editing && s.build == BuildFailed)
            && (p == PhaseBuildCompleted <==> editing && s.build == AwaitingInstallDecision)
            && (p == PhaseArtifactInstallation <==> editing && s.build == Installing)
            && (p == PhaseScxConfiguration <==> idle && s.configuration == Closed && s.scx == Visible)
            && (p == PhaseKernelDiscovery <==> s.lifecycle == KernelDiscovery || (plain && s.catalog == Unloaded))
            && (p == PhaseRefreshing <==> (r && s.transaction == Complete(true)) || (plain && s.catalog == RefreshPending))
            && (p == PhaseReady <==> plain && s.catalog == Loaded && Selection.Changes(s.rows) == [])
            && (p == PhaseSelectionChanged <==> plain && s.catalog == Loaded && Selection.Changes(s.rows) != [])
  {
    hide Selection.Changes;
  }
}
