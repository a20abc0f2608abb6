/** The application state machine (crates/cachyos-kernel-manager-core/src/state.rs). */
module AppState {
  import opened Options
  import Selection

  datatype Lifecycle = Startup | KernelDiscovery | Ready | Shutdown
  datatype Catalog = Unloaded | Loaded | RefreshPending
  datatype Transaction = Idle | Planning | Authenticating | Running | Complete(changed: bool) | Failed
  datatype Configuration = Closed | Preparing | Editing
  datatype Build = BuildIdle | BuildRunning | BuildFailed | AwaitingInstallDecision | Installing
  {
    /** A build is executing, or the install question or the install is up. */
    predicate InFlight() {
      BuildRunning? || AwaitingInstallDecision? || Installing?
    }
  }
  datatype Scx = Hidden | Visible
  datatype Dialogs = NoDialog | Progress(message: string) | Error(message: string) | Confirm(message: string)

  datatype Effect =
    | RefreshKernels | RunTransaction | RunBuild(variantDir: string) | InstallArtifacts | Authenticate
    | PrepareConfiguration | ShowScxWindow | CloseWindow | ShowError(message: string)
    | ShowProgress(message: string) | HideProgress

  datatype Event =
    | Started | DiscoveryFinished | KernelToggled(row: nat) | ExecuteRequested | TransactionStarted
    | TransactionFinished(changed: bool) | TransactionFailed(message: string) | TransactionErrorAcknowledged
    | ConfigureRequested | ConfigurePrepared | BuildRequested | BuildFinished(success: bool)
    | InstallArtifactsRequested | InstallDeclined | ArtifactsInstalled | ScxShowRequested | CloseRequested
    | ConfigurationCancelRequested | ConfigurationCloseRequested | ScxWindowClosed

  datatype Phase =
    | PhaseStartup | PhaseKernelDiscovery | PhaseReady | PhaseSelectionChanged | PhaseTransactionPlanning
    | PhaseAuthenticating | PhaseTransactionRunning | PhaseTransactionComplete | PhaseTransactionFailed
    | PhaseRefreshing | PhaseConfigurationPreparation | PhaseConfigurationEditing | PhaseBuildRunning
    | PhaseBuildFailed | PhaseBuildCompleted | PhaseArtifactInstallation | PhaseScxConfiguration | PhaseShutdown

  const INITIALIZING := "Please wait...\nInitializing kernels.."
  const CLONING := "Please wait...\nWe are preparing configuration window for you\ncloning PKGBUILDs.."

  datatype State = State(
    lifecycle: Lifecycle, catalog: Catalog, rows: seq<Selection.KernelRow>, transaction: Transaction,
    configuration: Configuration, build: Build, scx: Scx, dialogs: Dialogs, buildOptions: BuildOptions)
  {
    predicate TransactionInProgress() {
      transaction.Planning? || transaction.Authenticating? || transaction.Running?
    }

    predicate ExecuteEnabled() {
      transaction == Idle && Selection.Changes(rows) != [] && catalog != RefreshPending
    }

    function Phase(): Phase {
      match lifecycle
      case Startup => PhaseStartup
      case KernelDiscovery => PhaseKernelDiscovery
      case Shutdown => PhaseShutdown
      case Ready =>
        match transaction
        case Planning => PhaseTransactionPlanning
        case Authenticating => PhaseAuthenticating
        case Running => PhaseTransactionRunning
        case Complete(changed) => if changed then PhaseRefreshing else PhaseTransactionComplete
        case Failed => PhaseTransactionFailed
        case Idle =>
          match configuration
          case Preparing => PhaseConfigurationPreparation
          case Editing =>
            (match build
             case BuildIdle => PhaseConfigurationEditing
             case BuildRunning => PhaseBuildRunning
             case BuildFailed => PhaseBuildFailed
             case AwaitingInstallDecision => PhaseBuildCompleted
             case Installing => PhaseArtifactInstallation)
          case Closed =>
            if scx == Visible then PhaseScxConfiguration
            else
              match catalog
              case Unloaded => PhaseKernelDiscovery
              case Loaded => if Selection.Changes(rows) == [] then PhaseReady else PhaseSelectionChanged
              case RefreshPending => PhaseRefreshing
    }
  }

  const INITIAL := State(Startup, Unloaded, [], Idle, Closed, BuildIdle, Hidden, NoDialog, DEFAULT_OPTIONS)

  // ---------- the components, one at a time ----------

  datatype Component = OfPipeline | OfSelection | OfConfiguration | OfBuild | OfScx

  /** The component an event is addressed to. */
  function Addressee(e: Event): Component {
    match e
    case KernelToggled(_) => OfSelection
    case ConfigureRequested | ConfigurePrepared => OfConfiguration
    case ConfigurationCancelRequested | ConfigurationCloseRequested => OfConfiguration
    case BuildRequested | BuildFinished(_) | InstallArtifactsRequested => OfBuild
    case InstallDeclined | ArtifactsInstalled => OfBuild
    case ScxShowRequested | ScxWindowClosed => OfScx
    case _ => OfPipeline
  }

  function LifecycleStep(l: Lifecycle, e: Event): Lifecycle {
    if e == Started then KernelDiscovery
    else if e == DiscoveryFinished then Ready
    else if e == CloseRequested then Shutdown
    else l
  }

  function CatalogStep(c: Catalog, e: Event): Catalog {
    if e == DiscoveryFinished || e == TransactionFinished(false) then Loaded
    else if e == TransactionFinished(true) then RefreshPending
    else c
  }

  function TransactionStep(t: Transaction, c: Catalog, e: Event): Transaction {
    match e
    case ExecuteRequested => if t.Planning? || t.Authenticating? || t.Running? then t else Planning
    case TransactionStarted => Running
    case TransactionFinished(changed) => if changed then Complete(true) else Idle
    case TransactionFailed(_) => Failed
    case TransactionErrorAcknowledged => Idle
    case DiscoveryFinished => if c == RefreshPending then Idle else t
    case _ => t
  }

  function ConfigurationStep(c: Configuration, e: Event): Configuration {
    match e
    case ConfigureRequested => Preparing
    case ConfigurePrepared => Editing
    case ConfigurationCancelRequested | ConfigurationCloseRequested => Closed
    case _ => c
  }

  function BuildStep(b: Build, e: Event): Build {
    match e
    case BuildRequested => if b.InFlight() then b else BuildRunning
    case BuildFinished(success) => if success then AwaitingInstallDecision else BuildFailed
    case InstallArtifactsRequested => Installing
    case InstallDeclined | ArtifactsInstalled => BuildIdle
    case _ => b
  }

  function ScxStep(s: Scx, e: Event): Scx {
    match e
    case ScxShowRequested => Visible
    case ScxWindowClosed => Hidden
    case _ => s
  }

  function RowsStep(rows: seq<Selection.KernelRow>, e: Event): seq<Selection.KernelRow> {
    match e
    case KernelToggled(i) => Selection.Toggle(rows, i)
    case _ => rows
  }

  /** The next state, component by component. */
  function Next(s: State, e: Event): State {
    State(LifecycleStep(s.lifecycle, e), CatalogStep(s.catalog, e), RowsStep(s.rows, e),
          TransactionStep(s.transaction, s.catalog, e), ConfigurationStep(s.configuration, e),
          BuildStep(s.build, e), ScxStep(s.scx, e), s.dialogs, s.buildOptions)
  }

  /** The effects that hand out work, and the presentation around them. */
  function Effects(s: State, e: Event): seq<Effect> {
    match e
    case Started => [ShowProgress(INITIALIZING), RefreshKernels]
    case DiscoveryFinished => [HideProgress]
    case ExecuteRequested => if s.TransactionInProgress() then [] else [Authenticate, RunTransaction]
    case TransactionFinished(changed) => if changed then [RefreshKernels, ShowProgress(INITIALIZING)] else [HideProgress]
    case TransactionFailed(message) => [ShowError(message)]
    case ConfigureRequested => [PrepareConfiguration, ShowProgress(CLONING)]
    case ConfigurePrepared | ConfigurationCancelRequested | ConfigurationCloseRequested => [HideProgress]
    case BuildRequested => if s.build.InFlight() then [] else [RunBuild(s.buildOptions.variant.DirName())]
    case InstallArtifactsRequested => [InstallArtifacts]
    case ScxShowRequested => [ShowScxWindow]
    case CloseRequested => [CloseWindow]
    case _ => []
  }

  /** `transition`, event by event: clone, assign fields, push effects. */
  method Transition(state: State, event: Event) returns (next: State, effects: seq<Effect>)
    ensures next == Next(state, event)
    ensures effects == Effects(state, event)
  {
    next, effects := state, [];
    match event {
      case Started =>
        next := next.(lifecycle := KernelDiscovery);
        effects := effects + [ShowProgress(INITIALIZING)];
        effects := effects + [RefreshKernels];
      case DiscoveryFinished =>
        next := next.(lifecycle := Ready);
        next := next.(catalog := Loaded);
        effects := effects + [HideProgress];
        if state.catalog == RefreshPending {
          next := next.(transaction := Idle);
        }
      case KernelToggled(row) =>
        next := next.(rows := Selection.Toggle(next.rows, row));
      case ExecuteRequested =>
        if state.TransactionInProgress() {
          return;
        }
        next := next.(transaction := Planning);
        effects := effects + [Authenticate];
        effects := effects + [RunTransaction];
      case TransactionStarted =>
        next := next.(transaction := Running);
      case TransactionFinished(changed) =>
        if changed {
          next := next.(transaction := Complete(changed));
          next := next.(catalog := RefreshPending);
          effects := effects + [RefreshKernels];
          effects := effects + [ShowProgress(INITIALIZING)];
        } else {
          next := next.(transaction := Idle);
          next := next.(catalog := Loaded);
          effects := effects + [HideProgress];
        }
      case TransactionFailed(message) =>
        next := next.(transaction := Failed);
        effects := effects + [ShowError(message)];
      case TransactionErrorAcknowledged =>
        next := next.(transaction := Idle);
      case ConfigureRequested =>
        next := next.(configuration := Preparing);
        effects := effects + [PrepareConfiguration];
        effects := effects + [ShowProgress(CLONING)];
      case ConfigurePrepared =>
        next := next.(configuration := Editing);
        effects := effects + [HideProgress];
      case BuildRequested =>
        if state.build.InFlight() {
          return;
        }
        next := next.(build := BuildRunning);
        effects := effects + [RunBuild(next.buildOptions.variant.DirName())];
      case InstallArtifactsRequested =>
        next := next.(build := Installing);
        effects := effects + [InstallArtifacts];
      case BuildFinished(success) =>
        next := next.(build := if success then AwaitingInstallDecision else BuildFailed);
      case InstallDeclined =>
        next := next.(build := BuildIdle);
      case ArtifactsInstalled =>
        next := next.(build := BuildIdle);
      case ScxShowRequested =>
        next := next.(scx := Visible);
        effects := effects + [ShowScxWindow];
      case CloseRequested =>
        next := next.(lifecycle := Shutdown);
        effects := effects + [CloseWindow];
      case ScxWindowClosed =>
        next := next.(scx := Hidden);
      case ConfigurationCancelRequested | ConfigurationCloseRequested =>
        next := next.(configuration := Closed);
        effects := effects + [HideProgress];
    }
  }

  // ---------- orthogonality over whole runs ----------

  function Run(s: State, events: seq<Event>): State
    decreases |events|
  {
    if events == [] then s else Run(Next(s, events[0]), events[1..])
  }

  /** The effects of a run's events that are addressed to component `c`, in order. */
  function EffectLog(s: State, events: seq<Event>, c: Component): seq<Effect>
    decreases |events|
  {
    if events == [] then []
    else (if Addressee(events[0]) == c then Effects(s, events[0]) else []) + EffectLog(Next(s, events[0]), events[1..], c)
  }

  /** The events addressed to component `c`. */
  function Only(events: seq<Event>, c: Component): seq<Event> {
    if events == [] then []
    else (if Addressee(events[0]) == c then [events[0]] else []) + Only(events[1..], c)
  }

  /** Two states agree on component `c` (and on the build options, which no event changes). */
  predicate Agree(s: State, t: State, c: Component) {
    s.buildOptions == t.buildOptions && s.dialogs == t.dialogs
    && match c
       case OfPipeline => s.lifecycle == t.lifecycle && s.catalog == t.catalog && s.transaction == t.transaction
       case OfSelection => s.rows == t.rows
       case OfConfiguration => s.configuration == t.configuration
       case OfBuild => s.build == t.build
       case OfScx => s.scx == t.scx
  }

  /** A component's whole-run outcome and effects depend only on its own events. */
  lemma {:induction false} RunsProject(s: State, t: State, events: seq<Event>, c: Component)
    requires Agree(s, t, c)
    ensures Agree(Run(s, events), Run(t, Only(events, c)), c)
    ensures EffectLog(s, events, c) == EffectLog(t, Only(events, c), c)
    decreases |events|
  {
    if events != [] {
      var e := events[0];
      if Addressee(e) == c {
        RunsProject(Next(s, e), Next(t, e), events[1..], c);
        assert Only(events, c)[1..] == Only(events[1..], c);
      } else {
        RunsProject(Next(s, e), t, events[1..], c);
        assert Only(events, c) == Only(events[1..], c);
      }
    }
  }

  /** Hence all interleavings of the same per-component event lists end in the same state, with the
      same effects per component. */
  lemma {:induction false} InterleavingsAgree(s: State, events: seq<Event>, other: seq<Event>)
    requires forall c: Component :: Only(events, c) == Only(other, c)
    ensures Run(s, events) == Run(s, other)
    ensures forall c: Component :: EffectLog(s, events, c) == EffectLog(s, other, c)
  {
    forall c: Component
      ensures Agree(Run(s, events), Run(s, other), c) && EffectLog(s, events, c) == EffectLog(s, other, c)
    {
      RunsProject(s, s, events, c);
      RunsProject(s, s, other, c);
    }
    assert Agree(Run(s, events), Run(s, other), OfPipeline) && Agree(Run(s, events), Run(s, other), OfSelection)
           && Agree(Run(s, events), Run(s, other), OfConfiguration) && Agree(Run(s, events), Run(s, other), OfBuild)
           && Agree(Run(s, events), Run(s, other), OfScx);
  }
}
