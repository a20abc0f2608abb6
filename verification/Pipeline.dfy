/** The application together with its discovery and transaction workers and its one dialog slot
    (crates/cachyos-kernel-manager-core/src/state.rs, crates/cachyos-kernel-manager-ui/src/app.rs). */
module Pipeline {
  import opened Text
  import opened AppState
  import opened Runs
  import Selection

  /** The application and the jobs it has handed out: refreshes, transactions not yet begun, and
      transactions begun. The application's `dialogs` field is the one dialog it shows. */
  datatype System = System(app: State, refreshes: nat, queued: nat, begun: nat)

  datatype Action =
    | PressExecute
    | OtherInput(event: Event)
    | DiscoveryAnswers(rows: seq<Selection.KernelRow>)
    | DiscoveryBreaks(message: string)
    | WorkerBegins
    | WorkerFinishes(changed: bool)
    | WorkerFails(message: string)
    | Acknowledge
    | AnswerQuestion(yes: bool)
    | ErrorRaised(message: string)
    | DialogDismissed

  const NO_KERNELS := "No kernels found!\nPlease run `pacman -Sy` to update DB!\nThis is needed for the app to work properly"
  const INSTALL_QUESTION := "Do you want to install build packages?"

  /** A worker answers only a job it holds; Execute can be pressed only while its button is enabled;
      a dialog's buttons can be pressed only while it is the one shown; a build or an install
      completes only while it runs. Any other task may raise an error at any time, and a completed
      save dismisses whatever dialog is up, as the button of an error dialog does. */
  predicate Enabled(s: System, a: Action) {
    match a
    case PressExecute => s.app.ExecuteEnabled()
    case OtherInput(e) =>
      (match e
       case CloseRequested => true
       case BuildFinished(_) => s.app.build.BuildRunning?
       case ArtifactsInstalled => s.app.build.Installing?
       case InstallArtifactsRequested | InstallDeclined => false
       case _ => Addressee(e) != OfPipeline)
    case DiscoveryAnswers(_) | DiscoveryBreaks(_) => s.refreshes > 0
    case WorkerBegins => s.queued > 0
    case WorkerFinishes(_) | WorkerFails(_) => s.begun > 0
    case Acknowledge => s.app.transaction == Failed && s.app.dialogs.Error?
    case AnswerQuestion(_) => s.app.dialogs.Confirm?
    case ErrorRaised(_) | DialogDismissed => true
  }

  /** What moves the pipeline on: a worker's message, or the error of a failed transaction being
      acknowledged. */
  predicate IsAnswer(a: Action) {
    a.DiscoveryAnswers? || a.DiscoveryBreaks? || a.WorkerBegins? || a.WorkerFinishes? || a.WorkerFails? || a.Acknowledge?
  }

  /** The event the message handler passes on, if any: dismissing a dialog acknowledges a failed
      transaction. */
  function EventOf(s: State, a: Action): Option<Event> {
    match a
    case PressExecute => Some(ExecuteRequested)
    case OtherInput(e) => Some(e)
    case DiscoveryAnswers(_) | DiscoveryBreaks(_) => Some(DiscoveryFinished)
    case WorkerBegins => Some(TransactionStarted)
    case WorkerFinishes(changed) => Some(TransactionFinished(changed))
    case WorkerFails(message) => Some(TransactionFailed(message))
    case Acknowledge | DialogDismissed => if s.transaction == Failed then Some(TransactionErrorAcknowledged) else None
    case AnswerQuestion(yes) => Some(if yes then InstallArtifactsRequested else InstallDeclined)
    case ErrorRaised(_) => None
  }

  /** What the handler changes itself before the event. */
  function Before(s: State, a: Action): State {
    match a
    case DiscoveryAnswers(rows) => s.(rows := rows)
    case DiscoveryBreaks(message) => s.(rows := [], dialogs := Error(message))
    case ErrorRaised(message) => s.(dialogs := Error(message))
    case Acknowledge | DialogDismissed | AnswerQuestion(_) => s.(dialogs := NoDialog)
    case _ => s
  }

  /** What it changes itself after the event. */
  function Behind(d: Dialogs, a: Action): Dialogs {
    if a.OtherInput? && a.event == BuildFinished(true) then Confirm(INSTALL_QUESTION)
    else if a.DiscoveryAnswers? && a.rows == [] then Error(NO_KERNELS)
    else d
  }

  /** The dialog effects of one event, in order; progress is hidden only where it is shown. */
  function Interpret(d: Dialogs, effects: seq<Effect>): Dialogs {
    if effects == [] then d
    else
      var before := Interpret(d, effects[..|effects| - 1]);
      match effects[|effects| - 1]
      case ShowProgress(message) => Progress(message)
      case HideProgress => if before.Progress? then NoDialog else before
      case ShowError(message) => Error(message)
      case _ => before
  }

  function Count(effects: seq<Effect>, e: Effect): nat {
    multiset(effects)[e]
  }

  /** One message: the event through the transition, its dialog effects, and the handler's own part;
      finished jobs leave, the emitted ones join. */
  function Dispatch(s: System, a: Action): System
    requires a.DiscoveryAnswers? || a.DiscoveryBreaks? ==> s.refreshes > 0
    requires a.WorkerBegins? ==> s.queued > 0
    requires a.WorkerFinishes? || a.WorkerFails? ==> s.begun > 0
  {
    var before, event := Before(s.app, a), EventOf(s.app, a);
    var next := if event.Some? then Next(before, event.value) else before;
    var effects := if event.Some? then Effects(before, event.value) else [];
    System(next.(dialogs := Behind(Interpret(next.dialogs, effects), a)),
           s.refreshes - (if a.DiscoveryAnswers? || a.DiscoveryBreaks? then 1 else 0) + Count(effects, RefreshKernels),
           s.queued - (if a.WorkerBegins? then 1 else 0) + Count(effects, RunTransaction),
           s.begun + (if a.WorkerBegins? then 1 else 0) - (if a.WorkerFinishes? || a.WorkerFails? then 1 else 0))
  }

  /** Start-up runs the first event before the window accepts input. */
  const BOOTED := System(
    Next(INITIAL, Started).(dialogs := Interpret(NoDialog, Effects(INITIAL, Started))),
    Count(Effects(INITIAL, Started), RefreshKernels), 0, 0)

  predicate Legal(s: System, run: seq<Action>)
    decreases |run|
  {
    run == [] || (Enabled(s, run[0]) && Legal(Dispatch(s, run[0]), run[1..]))
  }

  function After(s: System, run: seq<Action>): System
    requires Legal(s, run)
    decreases |run|
  {
    if run == [] then s else After(Dispatch(s, run[0]), run[1..])
  }

  // ---------- the invariant ----------

  predicate Accounts(s: System) {
    && s.queued == (if s.app.transaction.Planning? then 1 else 0)
    && s.begun == (if s.app.transaction.Running? then 1 else 0)
    && s.refreshes == (if s.app.catalog == Loaded then 0 else 1)
    && (s.app.catalog == RefreshPending <==> s.app.transaction == Complete(true))
    && (s.app.catalog == Unloaded ==> s.app.transaction == Idle && s.app.rows == [])
    && s.app.transaction != Authenticating && s.app.transaction != Complete(false)
  }

  /** The install question is shown only while a build waits for its answer. */
  predicate Asked(s: System) {
    s.app.dialogs.Confirm? ==> s.app.build.AwaitingInstallDecision?
  }

  predicate Inv(s: System) {
    Accounts(s) && Asked(s)
  }

  /** What is shown after an event's effects. */
  function ShownBy(d: Dialogs, e: Event): Dialogs {
    match e
    case Started => Progress(INITIALIZING)
    case TransactionFinished(true) => Progress(INITIALIZING)
    case ConfigureRequested => Progress(CLONING)
    case TransactionFailed(message) => Error(message)
    case DiscoveryFinished | TransactionFinished(false) | ConfigurePrepared => if d.Progress? then NoDialog else d
    case ConfigurationCancelRequested | ConfigurationCloseRequested => if d.Progress? then NoDialog else d
    case _ => d
  }

  lemma EffectsShow(s: State, e: Event, d: Dialogs)
    ensures Interpret(d, Effects(s, e)) == ShownBy(d, e)
  {
    var effects := Effects(s, e);
    assert Interpret(d, []) == d;
    if |effects| > 0 {
      var first := effects[..|effects| - 1];
      if |first| > 0 {
        assert first == [effects[0]] && first[..0] == [];
        assert Interpret(d, first[..0]) == d;
      }
    }
  }

  /** The jobs an event's effects hand out. */
  lemma CountShort(effects: seq<Effect>, e: Effect)
    requires |effects| <= 2
    ensures Count(effects, e) == (if |effects| > 0 && effects[0] == e then 1 else 0) + (if |effects| > 1 && effects[1] == e then 1 else 0)
  {
    if |effects| == 1 {
      assert effects == [effects[0]];
    } else if |effects| == 2 {
      assert effects == [effects[0], effects[1]];
    }
  }

  lemma JobsOf(s: State, e: Event)
    ensures Count(Effects(s, e), RefreshKernels) == (if e == Started || e == TransactionFinished(true) then 1 else 0)
    ensures Count(Effects(s, e), RunTransaction)
            == (if e == ExecuteRequested && !s.TransactionInProgress() then 1 else 0)
  {
    hide Count;
    CountShort(Effects(s, e), RefreshKernels);
    CountShort(Effects(s, e), RunTransaction);
  }

  /** What the theorems speak of. */
  datatype Brief = Brief(
    catalog: Catalog, transaction: Transaction, rows: seq<Selection.KernelRow>, build: Build, dialogs: Dialogs,
    refreshes: int, queued: int, begun: int)

  function BriefOf(s: System): Brief {
    Brief(s.app.catalog, s.app.transaction, s.app.rows, s.app.build, s.app.dialogs, s.refreshes, s.queued, s.begun)
  }

  function Acknowledged(t: Transaction): Transaction {
    if t == Failed then Idle else t
  }

  function Refreshed(t: Transaction, c: Catalog): Transaction {
    if c == RefreshPending then Idle else t
  }

  /** What an enabled message does, message by message. */
  function Told(b: Brief, a: Action): Brief {
    match a
    case PressExecute => b.(transaction := Planning, queued := b.queued + 1)
    case OtherInput(e) =>
      b.(rows := RowsStep(b.rows, e), build := BuildStep(b.build, e),
         dialogs := if e == BuildFinished(true) then Confirm(INSTALL_QUESTION) else ShownBy(b.dialogs, e))
    case DiscoveryAnswers(rows) =>
      b.(catalog := Loaded, transaction := Refreshed(b.transaction, b.catalog), rows := rows, refreshes := b.refreshes - 1,
         dialogs := if rows == [] then Error(NO_KERNELS) else ShownBy(b.dialogs, DiscoveryFinished))
    case DiscoveryBreaks(message) =>
      b.(catalog := Loaded, transaction := Refreshed(b.transaction, b.catalog), rows := [], refreshes := b.refreshes - 1,
         dialogs := Error(message))
    case WorkerBegins => b.(transaction := Running, queued := b.queued - 1, begun := b.begun + 1)
    case WorkerFinishes(changed) =>
      if changed then
        b.(catalog := RefreshPending, transaction := Complete(true), dialogs := Progress(INITIALIZING),
           refreshes := b.refreshes + 1, begun := b.begun - 1)
      else
        b.(catalog := Loaded, transaction := Idle, dialogs := ShownBy(b.dialogs, TransactionFinished(false)),
           begun := b.begun - 1)
    case WorkerFails(message) => b.(transaction := Failed, dialogs := Error(message), begun := b.begun - 1)
    case Acknowledge | DialogDismissed => b.(transaction := Acknowledged(b.transaction), dialogs := NoDialog)
    case AnswerQuestion(yes) => b.(build := if yes then Installing else BuildIdle, dialogs := NoDialog)
    case ErrorRaised(message) => b.(dialogs := Error(message))
  }

  lemma HandlerShows(s: System, a: Action)
    ensures var before, event := Before(s.app, a).dialogs, EventOf(s.app, a);
            Behind(if event.Some? then ShownBy(before, event.value) else before, a) == Told(BriefOf(s), a).dialogs
  {
  }

  lemma DispatchShows(s: System, a: Action)
    requires Enabled(s, a)
    ensures Dispatch(s, a).app.dialogs == Told(BriefOf(s), a).dialogs
  {
    var before, event := Before(s.app, a), EventOf(s.app, a);
    assert Interpret(before.dialogs, []) == before.dialogs;
    if event.Some? {
      EffectsShow(before, event.value, before.dialogs);
    }
    HandlerShows(s, a);
    hide Interpret, Effects, Count, RowsStep, BuildStep, TransactionStep, CatalogStep, Behind, ShownBy, Told, EventOf, Before;
  }

  /** The jobs a message's event hands out. */
  lemma HandedOut(s: System, a: Action)
    requires Enabled(s, a)
    ensures var e := EventOf(s.app, a);
            && (e.Some? && e.value == ExecuteRequested && !Before(s.app, a).TransactionInProgress() <==> a.PressExecute?)
            && (e.Some? && (e.value == Started || e.value == TransactionFinished(true)) <==> a == WorkerFinishes(true))
  {
    hide Selection.Changes;
  }

  lemma ToldCounts(b: Brief, a: Action)
    ensures var t := Told(b, a);
            && t.refreshes == b.refreshes + (if a == WorkerFinishes(true) then 1 else if a.DiscoveryAnswers? || a.DiscoveryBreaks? then -1 else 0)
            && t.queued == b.queued + (if a.PressExecute? then 1 else if a.WorkerBegins? then -1 else 0)
            && t.begun == b.begun + (if a.WorkerBegins? then 1 else if a.WorkerFinishes? || a.WorkerFails? then -1 else 0)
  {
  }

  lemma DispatchCounts(s: System, a: Action)
    requires Enabled(s, a)
    ensures var t, b := Dispatch(s, a), Told(BriefOf(s), a);
            t.refreshes == b.refreshes && t.queued == b.queued && t.begun == b.begun
  {
    assert Count([], RefreshKernels) == 0 && Count([], RunTransaction) == 0;
    HandedOut(s, a);
    ToldCounts(BriefOf(s), a);
    if EventOf(s.app, a).Some? {
      JobsOf(Before(s.app, a), EventOf(s.app, a).value);
    }
    hide Told, Next, Interpret, Effects, Count, Behind, EventOf, Before, State.TransactionInProgress;
  }

  lemma DispatchMoves(s: System, a: Action)
    requires Enabled(s, a)
    ensures var t, b := Dispatch(s, a).app, Told(BriefOf(s), a);
            t.catalog == b.catalog && t.transaction == b.transaction && t.rows == b.rows && t.build == b.build
  {
    hide Interpret, Effects, Count, Behind, ShownBy, Selection.Changes, Selection.Toggle;
  }

  /** The transition with its effects and the handler's own part, taken together, do what the table
      says. */
  lemma DispatchTells(s: System, a: Action)
    requires Enabled(s, a)
    ensures BriefOf(Dispatch(s, a)) == Told(BriefOf(s), a)
  {
    DispatchShows(s, a);
    DispatchCounts(s, a);
    DispatchMoves(s, a);
    hide Told, Dispatch;
  }

  lemma BootedInv()
    ensures Inv(BOOTED)
  {
    EffectsShow(INITIAL, Started, NoDialog);
    assert multiset(Effects(INITIAL, Started)) == multiset{ShowProgress(INITIALIZING), RefreshKernels};
  }

  lemma NoRows()
    ensures Selection.Changes([]) == []
  {
  }

  lemma StepAsked(s: System, a: Action)
    requires Asked(s) && Enabled(s, a)
    ensures Asked(Dispatch(s, a))
  {
    DispatchTells(s, a);
    hide Dispatch;
  }

  lemma StepAccounts(s: System, a: Action)
    requires Accounts(s) && Enabled(s, a)
    ensures Accounts(Dispatch(s, a))
  {
    NoRows();
    DispatchTells(s, a);
    hide Dispatch, Selection.Changes;
  }

  lemma StepInv(s: System, a: Action)
    requires Inv(s) && Enabled(s, a)
    ensures Inv(Dispatch(s, a))
  {
    StepAccounts(s, a);
    StepAsked(s, a);
    hide Dispatch, Accounts, Asked;
  }

  lemma {:induction false} RunInv(s: System, run: seq<Action>)
    requires Inv(s) && Legal(s, run)
    ensures Inv(After(s, run))
    decreases |run|
  {
    if run != [] {
      StepInv(s, run[0]);
      RunInv(Dispatch(s, run[0]), run[1..]);
    }
  }

  /** What the job accounting is for: exactly one transaction job while a transaction is in progress
      and none otherwise, at most one refresh, the pending refresh is the one a changed transaction
      asked for, and a discovery answer never finds a transaction in progress. */
  predicate Safe(s: System) {
    && s.queued + s.begun == (if s.app.TransactionInProgress() then 1 else 0)
    && s.refreshes <= 1
    && (s.app.catalog == RefreshPending <==> s.app.transaction == Complete(true))
    && (s.refreshes > 0 ==> !s.app.TransactionInProgress())
    && (s.app.catalog == Unloaded ==> s.app.rows == [])
  }

  /** Safety over all runs. */
  lemma {:induction false} JobsMatchState(run: seq<Action>)
    requires Legal(BOOTED, run)
    ensures Safe(After(BOOTED, run))
  {
    BootedInv();
    RunInv(BOOTED, run);
  }

  // ---------- progress ----------

  function Rank(s: State): nat {
    match s.transaction
    case Planning | Authenticating => 3
    case Running => 2
    case Complete(_) | Failed => 1
    case Idle => if s.catalog == Unloaded then 1 else 0
  }

  lemma StepRank(s: System, a: Action)
    requires Inv(s) && Enabled(s, a)
    ensures IsAnswer(a) ==> Rank(Dispatch(s, a).app) < Rank(s.app)
    ensures !IsAnswer(a) && !a.PressExecute? ==> Rank(Dispatch(s, a).app) <= Rank(s.app)
    ensures a.PressExecute? ==> Rank(s.app) == 0 && Rank(Dispatch(s, a).app) == 3
  {
    NoRows();
    DispatchTells(s, a);
    hide Dispatch, Selection.Changes;
  }

  function Answers(run: seq<Action>): nat {
    if run == [] then 0 else (if IsAnswer(run[0]) then 1 else 0) + Answers(run[1..])
  }

  function Presses(run: seq<Action>): nat {
    if run == [] then 0 else (if run[0].PressExecute? then 1 else 0) + Presses(run[1..])
  }

  /** Each press of Execute buys at most three answers, whatever else happens in between. */
  lemma {:induction false} AnswersBounded(s: System, run: seq<Action>)
    requires Inv(s) && Legal(s, run)
    ensures Answers(run) + Rank(After(s, run).app) <= Rank(s.app) + 3 * Presses(run)
    decreases |run|
  {
    if run != [] {
      StepRank(s, run[0]);
      StepInv(s, run[0]);
      AnswersBounded(Dispatch(s, run[0]), run[1..]);
    }
  }

  /** The transaction has failed and its error dialog is no longer there to be acknowledged. */
  predicate Lost(s: System) {
    s.app.transaction == Failed && !s.app.dialogs.Error?
  }

  /** No soft lock but one: while the transaction is not idle some answer is enabled exactly when it
      has not lost its error dialog. Every enabled answer lowers the rank, and once idle Execute is
      enabled exactly when there are changes. */
  lemma {:induction false} SoftLockExactly(run: seq<Action>)
    requires Legal(BOOTED, run)
    ensures var s := After(BOOTED, run);
            && (s.app.transaction != Idle ==> ((exists a :: IsAnswer(a) && Enabled(s, a)) <==> !Lost(s)))
            && (forall a :: IsAnswer(a) && Enabled(s, a) ==> Rank(Dispatch(s, a).app) < Rank(s.app))
            && (s.app.transaction == Idle ==> (s.app.ExecuteEnabled() <==> Selection.Changes(s.app.rows) != []))
  {
    BootedInv();
    RunInv(BOOTED, run);
    var s := After(BOOTED, run);
    AnswerThere(s);
    forall a | IsAnswer(a) && Enabled(s, a) ensures Rank(Dispatch(s, a).app) < Rank(s.app) {
      StepRank(s, a);
    }
  }

  lemma AnswerThere(s: System)
    requires Inv(s)
    ensures s.app.transaction != Idle && !Lost(s) ==> exists a :: IsAnswer(a) && Enabled(s, a)
    ensures Lost(s) ==> forall a :: IsAnswer(a) ==> !Enabled(s, a)
  {
    match s.app.transaction {
      case Planning => assert Enabled(s, WorkerBegins);
      case Running => assert Enabled(s, WorkerFinishes(true));
      case Complete(_) => assert Enabled(s, DiscoveryAnswers([]));
      case Failed => assert Lost(s) || Enabled(s, Acknowledge);
      case _ =>
    }
  }

  /** Another dialog takes the slot of the error. */
  predicate Covers(a: Action) {
    a.OtherInput? && (a.event == BuildFinished(true) || a.event.ConfigureRequested?)
  }

  /** How the error dialog of a failed transaction is lost, and how that is made good: it is lost
      exactly when a build succeeds or Configure is pressed under it, and stays lost until some other
      error is raised or a completed save dismisses the dialog that is up. */
  lemma LossExactly(s: System, a: Action)
    requires Inv(s) && Enabled(s, a)
    ensures Lost(Dispatch(s, a))
            <==> s.app.transaction == Failed && if Lost(s) then !a.ErrorRaised? && !a.DialogDismissed? else Covers(a)
  {
    DispatchTells(s, a);
    hide Dispatch;
  }

  /** So a session in which nothing takes the slot never loses an answer. */
  lemma {:induction false} NeverLost(s: System, run: seq<Action>)
    requires Inv(s) && Legal(s, run) && !Lost(s)
    requires forall a | a in run :: !Covers(a)
    ensures !Lost(After(s, run))
    decreases |run|
  {
    if run != [] {
      StepInv(s, run[0]);
      LossExactly(s, run[0]);
      NeverLost(Dispatch(s, run[0]), run[1..]);
    }
  }

  lemma {:induction false} NoSoftLock(run: seq<Action>)
    requires Legal(BOOTED, run) && forall a | a in run :: !Covers(a)
    ensures var s := After(BOOTED, run);
            s.app.transaction != Idle ==> exists a :: IsAnswer(a) && Enabled(s, a)
  {
    BootedInv();
    RunInv(BOOTED, run);
    NeverLost(BOOTED, run);
    AnswerThere(After(BOOTED, run));
  }

  /** Left to the workers and the error dialog, a system cannot run longer than its rank. Where it
      stops it is idle with no job outstanding - whatever the answers were - unless its error dialog
      was lost to begin with. */
  lemma {:induction false} AnswersDrain(s: System, run: seq<Action>)
    requires Inv(s) && Legal(s, run) && forall a | a in run :: IsAnswer(a)
    ensures |run| <= Rank(s.app)
    ensures var t := After(s, run);
            (forall a | IsAnswer(a) :: !Enabled(t, a))
            ==> t.refreshes == t.queued == t.begun == 0 && (t.app.transaction == Idle <==> !Lost(s))
    decreases |run|
  {
    if run == [] {
      if forall a | IsAnswer(a) :: !Enabled(s, a) {
        AnswerThere(s);
        assert !Enabled(s, WorkerBegins) && !Enabled(s, WorkerFinishes(true)) && !Enabled(s, DiscoveryAnswers([]));
      }
    } else {
      StepRank(s, run[0]);
      StepInv(s, run[0]);
      LossExactly(s, run[0]);
      AnswerThere(s);
      AnswersDrain(Dispatch(s, run[0]), run[1..]);
    }
  }

  // ---------- the same slot holds the install question ----------

  /** A build waits for the install question's answer, and the question is no longer there. */
  predicate QuestionLost(s: System) {
    s.app.build == AwaitingInstallDecision && !s.app.dialogs.Confirm?
  }

  /** Another dialog takes the slot of the question, or it is dismissed unanswered. */
  predicate CoversQuestion(a: Action) {
    match a
    case ErrorRaised(_) | DialogDismissed | WorkerFails(_) | DiscoveryBreaks(_) => true
    case DiscoveryAnswers(rows) => rows == []
    case WorkerFinishes(changed) => changed
    case OtherInput(e) => e.ConfigureRequested?
    case _ => false
  }

  /** When a waiting build loses its question - for good, as nothing asks it again. */
  lemma QuestionLossExactly(s: System, a: Action)
    requires Asked(s) && Enabled(s, a)
    ensures QuestionLost(Dispatch(s, a))
            <==> s.app.build == AwaitingInstallDecision && (QuestionLost(s) || CoversQuestion(a))
  {
    DispatchTells(s, a);
    hide Dispatch;
  }

  // ---------- the same over whole runs ----------

  lemma {:induction false} RunCons(s: System, run: seq<Action>)
    requires run != [] && Enabled(s, run[0])
    ensures Legal(s, run) <==> Legal(Dispatch(s, run[0]), run[1..])
    ensures Legal(s, run) ==> After(s, run) == After(Dispatch(s, run[0]), run[1..])
  {
    hide Dispatch;
  }

  /** A run may be cut anywhere. */
  lemma {:induction false} Cut(s: System, run: seq<Action>, k: nat)
    requires Legal(s, run) && k <= |run|
    ensures Legal(s, run[..k])
    ensures Legal(After(s, run[..k]), run[k..]) && After(After(s, run[..k]), run[k..]) == After(s, run)
    decreases k
  {
    if k == 0 {
      assert run[..k] == [] && run[k..] == run;
    } else {
      var d, rest := Dispatch(s, run[0]), run[1..];
      assert run[..k][1..] == rest[..k - 1] && run[k..] == rest[k - 1..] && run[..k][0] == run[0];
      hide Dispatch;
      Cut(d, rest, k - 1);
      hide Legal, After;
      RunCons(s, run);
      RunCons(s, run[..k]);
    }
  }

  predicate Fails(a: Action) {
    a.WorkerFails?
  }

  predicate Dismisses(a: Action) {
    a.Acknowledge? || a.DialogDismissed?
  }

  predicate Raises(a: Action) {
    a.ErrorRaised?
  }

  lemma StepFailed(s: System, a: Action)
    requires Inv(s) && Enabled(s, a)
    ensures Dispatch(s, a).app.transaction == Failed <==> Fails(a) || (s.app.transaction == Failed && !Dismisses(a))
    ensures Fails(a) ==> !Lost(Dispatch(s, a))
  {
    DispatchTells(s, a);
    hide Dispatch, Selection.Changes;
  }

  lemma {:induction false} FailedOverRun(s: System, run: seq<Action>)
    requires Inv(s) && Legal(s, run)
    ensures After(s, run).app.transaction == Failed <==> Holds(s.app.transaction == Failed, run, Fails, Dismisses)
    decreases |run|
  {
    if run != [] {
      StepInv(s, run[0]);
      StepFailed(s, run[0]);
      HoldsStep(s.app.transaction == Failed, run, Fails, Dismisses);
      FailedOverRun(Dispatch(s, run[0]), run[1..]);
      hide Dispatch, Inv, Holds;
    }
  }

  lemma {:induction false} LostWhileFailed(s: System, run: seq<Action>)
    requires Inv(s) && Legal(s, run) && s.app.transaction == Failed
    requires forall i | 0 <= i < |run| :: !Dismisses(run[i])
    ensures Lost(After(s, run)) <==> Holds(Lost(s), run, Covers, Raises)
    decreases |run|
  {
    if run != [] {
      var a := run[0];
      StepInv(s, a);
      StepFailed(s, a);
      LossExactly(s, a);
      HoldsStep(Lost(s), run, Covers, Raises);
      assert Covers(a) ==> !Raises(a);
      hide Dispatch, Inv, Holds, Lost, Covers;
      LostWhileFailed(Dispatch(s, a), run[1..]);
    }
  }

  /** The failure at `f` has not been dismissed since, and after it another dialog has taken the slot
      and no error has been raised since that. */
  ghost predicate LostSince(run: seq<Action>, f: nat) {
    && f < |run| && Fails(run[f]) && (forall j | f < j < |run| :: !Dismisses(run[j]))
    && Holds(false, run[f + 1..], Covers, Raises)
  }

  lemma {:induction false} LostFrom(run: seq<Action>, f: nat)
    requires Legal(BOOTED, run) && f < |run| && Fails(run[f]) && forall j | f < j < |run| :: !Dismisses(run[j])
    ensures Lost(After(BOOTED, run)) <==> LostSince(run, f)
  {
    BootedInv();
    Cut(BOOTED, run, f);
    RunInv(BOOTED, run[..f]);
    var s := After(BOOTED, run[..f]);
    var t := Dispatch(s, run[f]);
    assert run[f..][0] == run[f] && run[f..][1..] == run[f + 1..];
    StepInv(s, run[f]);
    StepFailed(s, run[f]);
    RunCons(s, run[f..]);
    hide Dispatch, Inv, Holds, Lost, Legal, After;
    LostWhileFailed(t, run[f + 1..]);
  }

  /** The soft lock over whole runs, read off the messages alone. */
  lemma {:induction false} LostExactly(run: seq<Action>)
    requires Legal(BOOTED, run)
    ensures Lost(After(BOOTED, run)) <==> exists f :: LostSince(run, f)
  {
    BootedInv();
    FailedOverRun(BOOTED, run);
    if Lost(After(BOOTED, run)) {
      var f :| 0 <= f < |run| && Fails(run[f]) && forall j | f < j < |run| :: !Dismisses(run[j]);
      LostFrom(run, f);
    }
    if f :| LostSince(run, f) {
      LostFrom(run, f);
    }
  }

  predicate Asks(a: Action) {
    a == OtherInput(BuildFinished(true))
  }

  predicate Answered(a: Action) {
    a.AnswerQuestion?
  }

  lemma StepAwaiting(s: System, a: Action)
    requires Inv(s) && Enabled(s, a)
    ensures Dispatch(s, a).app.build == AwaitingInstallDecision
            <==> Asks(a) || (s.app.build == AwaitingInstallDecision && !Answered(a))
    ensures Asks(a) ==> !QuestionLost(Dispatch(s, a))
  {
    DispatchTells(s, a);
    hide Dispatch, Selection.Changes;
  }

  lemma {:induction false} AwaitingOverRun(s: System, run: seq<Action>)
    requires Inv(s) && Legal(s, run)
    ensures After(s, run).app.build == AwaitingInstallDecision
            <==> Holds(s.app.build == AwaitingInstallDecision, run, Asks, Answered)
    decreases |run|
  {
    if run != [] {
      StepInv(s, run[0]);
      StepAwaiting(s, run[0]);
      HoldsStep(s.app.build == AwaitingInstallDecision, run, Asks, Answered);
      AwaitingOverRun(Dispatch(s, run[0]), run[1..]);
      hide Dispatch, Inv, Holds;
    }
  }

  lemma {:induction false} QuestionLostWhileAwaiting(s: System, run: seq<Action>)
    requires Inv(s) && Legal(s, run) && s.app.build == AwaitingInstallDecision
    requires forall i | 0 <= i < |run| :: !Answered(run[i])
    ensures QuestionLost(After(s, run)) <==> QuestionLost(s) || exists i :: 0 <= i < |run| && CoversQuestion(run[i])
    decreases |run|
  {
    if run != [] {
      var a, rest := run[0], run[1..];
      StepInv(s, a);
      StepAwaiting(s, a);
      QuestionLossExactly(s, a);
      hide Dispatch, Inv, QuestionLost, CoversQuestion;
      QuestionLostWhileAwaiting(Dispatch(s, a), rest);
      assert (exists i :: 0 <= i < |run| && CoversQuestion(run[i]))
             <==> CoversQuestion(a) || exists i :: 0 <= i < |rest| && CoversQuestion(rest[i]) by {
        assert forall i | 0 <= i < |rest| :: rest[i] == run[i + 1];
        if i :| 0 <= i < |run| && CoversQuestion(run[i]) {
          assert i == 0 || run[i] == rest[i - 1];
        }
      }
    }
  }

  /** The question asked at `b` has not been answered since, and something has covered it since. */
  predicate QuestionLostSince(run: seq<Action>, b: nat) {
    && b < |run| && Asks(run[b]) && (forall j | b < j < |run| :: !Answered(run[j]))
    && exists i :: b < i < |run| && CoversQuestion(run[i])
  }

  lemma {:induction false} QuestionLostFrom(run: seq<Action>, b: nat)
    requires Legal(BOOTED, run) && b < |run| && Asks(run[b]) && forall j | b < j < |run| :: !Answered(run[j])
    ensures QuestionLost(After(BOOTED, run)) <==> QuestionLostSince(run, b)
  {
    BootedInv();
    Cut(BOOTED, run, b);
    RunInv(BOOTED, run[..b]);
    var s := After(BOOTED, run[..b]);
    var t, rest := Dispatch(s, run[b]), run[b + 1..];
    assert run[b..][0] == run[b] && run[b..][1..] == rest;
    StepInv(s, run[b]);
    StepAwaiting(s, run[b]);
    RunCons(s, run[b..]);
    hide Dispatch, Inv, QuestionLost, CoversQuestion, Legal, After;
    QuestionLostWhileAwaiting(t, rest);
    assert forall i | 0 <= i < |rest| :: rest[i] == run[b + 1 + i];
    if i :| b < i < |run| && CoversQuestion(run[i]) {
      assert CoversQuestion(rest[i - b - 1]);
    }
  }

  /** The lost question over whole runs. */
  lemma {:induction false} QuestionLostExactly(run: seq<Action>)
    requires Legal(BOOTED, run)
    ensures QuestionLost(After(BOOTED, run)) <==> exists b :: QuestionLostSince(run, b)
  {
    BootedInv();
    AwaitingOverRun(BOOTED, run);
    if QuestionLost(After(BOOTED, run)) {
      var b :| 0 <= b < |run| && Asks(run[b]) && forall j | b < j < |run| :: !Answered(run[j]);
      QuestionLostFrom(run, b);
    }
    if b :| QuestionLostSince(run, b) {
      QuestionLostFrom(run, b);
    }
  }

  // ---------- the guard on the Execute button is needed ----------

  /** Pressing Execute whatever the button says keeps the accounting safe exactly when the catalog is
      loaded: `transition` itself checks only that no transaction is in progress. */
  lemma {:induction false} ExecuteGuardExactly(run: seq<Action>)
    requires Legal(BOOTED, run)
    ensures var s := After(BOOTED, run);
            Safe(Dispatch(s, PressExecute)) <==> s.app.catalog == Loaded
  {
    BootedInv();
    RunInv(BOOTED, run);
  }

  lemma UnguardedPress(s: System, rows: seq<Selection.KernelRow>)
    requires s.app.catalog == RefreshPending && s.refreshes == 1 && s.queued == 0 && s.app.transaction == Complete(true)
    ensures var t := Dispatch(s, PressExecute);
            t.app.TransactionInProgress() && Enabled(t, DiscoveryAnswers(rows))
            && var u := Dispatch(t, DiscoveryAnswers(rows));
               u.app.transaction == Idle && u.queued == 1
  {
    JobsOf(s.app, ExecuteRequested);
    var t := Dispatch(s, PressExecute);
    DispatchTells(t, DiscoveryAnswers(rows));
  }

  // ---------- sessions that show the conditions are needed ----------

  lemma {:induction false} RunSnoc(s: System, run: seq<Action>, a: Action)
    requires Legal(s, run) && Enabled(After(s, run), a)
    ensures Legal(s, run + [a]) && After(s, run + [a]) == Dispatch(After(s, run), a)
    decreases |run|
  {
    hide Dispatch;
    if run != [] {
      assert (run + [a])[1..] == run[1..] + [a];
      RunSnoc(Dispatch(s, run[0]), run[1..], a);
    }
  }

  /** One more message, and what it leaves behind. */
  lemma Extend(run: seq<Action>, a: Action) returns (longer: seq<Action>, t: System)
    requires Legal(BOOTED, run) && Enabled(After(BOOTED, run), a)
    ensures longer == run + [a] && Legal(BOOTED, longer) && t == After(BOOTED, longer)
    ensures BriefOf(t) == Told(BriefOf(After(BOOTED, run)), a)
  {
    longer := run + [a];
    RunSnoc(BOOTED, run, a);
    t := After(BOOTED, longer);
    DispatchTells(After(BOOTED, run), a);
  }

  const ROW := Selection.KernelRow("core/linux", "linux", false, false, false, false)

  lemma OneChange()
    ensures Selection.Changes(Selection.Toggle([ROW], 0)) == ["core/linux"]
  {
    var row := ROW.(checked := true);
    Selection.ChangesStep([], row);
    assert [ROW][0 := row] == [] + [row];
  }

  lemma Booted()
    ensures Legal(BOOTED, []) && After(BOOTED, []) == BOOTED
    ensures BriefOf(BOOTED) == Brief(Unloaded, Idle, [], BuildIdle, Progress(INITIALIZING), 1, 0, 0)
  {
    BootedInv();
    EffectsShow(INITIAL, Started, NoDialog);
  }

  /** The catalog arrives, the Configure window opens, and a build is started. */
  lemma {:induction false} Building() returns (run: seq<Action>, s: System)
    ensures Legal(BOOTED, run) && s == After(BOOTED, run)
    ensures BriefOf(s) == Brief(Loaded, Idle, [ROW], BuildRunning, NoDialog, 0, 0, 0)
  {
    Booted();
    hide Legal, After, Selection.Changes, Interpret, Effects;
    run, s := Extend([], DiscoveryAnswers([ROW]));
    run, s := Extend(run, OtherInput(ConfigureRequested));
    run, s := Extend(run, OtherInput(ConfigurePrepared));
    run, s := Extend(run, OtherInput(BuildRequested));
  }

  /** Then a kernel is checked, Execute is pressed, and the worker begins. */
  lemma {:induction false} BothRunning() returns (run: seq<Action>, s: System)
    ensures Legal(BOOTED, run) && s == After(BOOTED, run) && Inv(s)
    ensures BriefOf(s) == Brief(Loaded, Running, Selection.Toggle([ROW], 0), BuildRunning, NoDialog, 0, 0, 1)
  {
    OneChange();
    run, s := Building();
    hide Legal, After, Selection.Changes, Selection.Toggle, Interpret, Effects;
    run, s := Extend(run, OtherInput(KernelToggled(0)));
    run, s := Extend(run, PressExecute);
    run, s := Extend(run, WorkerBegins);
    BootedInv();
    RunInv(BOOTED, run);
  }

  /** The transaction fails, the build succeeds and its question is answered: the error dialog is gone,
      no answer is enabled, and neither is Execute. */
  lemma {:induction false} SoftLockReached(message: string) returns (run: seq<Action>)
    ensures Legal(BOOTED, run)
    ensures var s := After(BOOTED, run);
            s.app.transaction == Failed && s.app.dialogs == NoDialog
            && !s.app.ExecuteEnabled() && forall a :: IsAnswer(a) ==> !Enabled(s, a)
  {
    var s;
    run, s := BothRunning();
    hide Legal, After, Interpret, Effects, Selection.Changes;
    run, s := Extend(run, WorkerFails(message));
    run, s := Extend(run, OtherInput(BuildFinished(true)));
    run, s := Extend(run, AnswerQuestion(false));
    BootedInv();
    RunInv(BOOTED, run);
    AnswerThere(s);
  }

  /** The build succeeds, the transaction fails and its error is acknowledged: the question is gone and
      the build waits forever. */
  lemma {:induction false} QuestionLossReached(message: string) returns (run: seq<Action>)
    ensures Legal(BOOTED, run)
    ensures var s := After(BOOTED, run);
            s.app.build == AwaitingInstallDecision && s.app.dialogs == NoDialog && s.app.transaction == Idle
            && forall a :: Enabled(s, a) ==> QuestionLost(Dispatch(s, a))
  {
    var s;
    run, s := BothRunning();
    hide Legal, After, Interpret, Effects, Selection.Changes;
    run, s := Extend(run, OtherInput(BuildFinished(true)));
    run, s := Extend(run, WorkerFails(message));
    run, s := Extend(run, Acknowledge);
    BootedInv();
    RunInv(BOOTED, run);
    forall a | Enabled(s, a) ensures QuestionLost(Dispatch(s, a)) {
      QuestionLossExactly(s, a);
    }
  }

  /** A changed transaction leaves a refresh pending; an unguarded Execute then is knocked back by the
      refresh's answer, with its job still outstanding. */
  lemma {:induction false} UnguardedExecuteKnockedBack(rows: seq<Selection.KernelRow>) returns (run: seq<Action>)
    ensures Legal(BOOTED, run)
    ensures var s := After(BOOTED, run);
            var t := Dispatch(s, PressExecute);
            && s.app.catalog == RefreshPending && t.app.TransactionInProgress() && Enabled(t, DiscoveryAnswers(rows))
            && var u := Dispatch(t, DiscoveryAnswers(rows));
               u.app.transaction == Idle && u.queued == 1
  {
    var s;
    run, s := BothRunning();
    run, s := Extend(run, WorkerFinishes(true));
    UnguardedPress(s, rows);
  }

  // ---------- the derived phase ----------

  lemma PhaseOf(s: System)
    requires Inv(s)
    ensures s.app.Phase() != PhaseAuthenticating && s.app.Phase() != PhaseTransactionComplete
    ensures s.app.Phase() == PhaseSelectionChanged ==> s.app.ExecuteEnabled()
    ensures s.app.lifecycle == Ready && s.app.configuration == Closed && s.app.scx == Hidden
            ==> (s.app.ExecuteEnabled() <==> s.app.Phase() == PhaseSelectionChanged)
  {
    NoRows();
    hide Selection.Changes;
  }

  /** The phase that is shown never names the two transaction states the program does not reach,
      and with no other window open it announces a changed selection exactly when Execute is
      enabled. */
  lemma {:induction false} PhaseTellsExecute(run: seq<Action>)
    requires Legal(BOOTED, run)
    ensures var app := After(BOOTED, run).app;
            && app.Phase() != PhaseAuthenticating && app.Phase() != PhaseTransactionComplete
            && (app.Phase() == PhaseSelectionChanged ==> app.ExecuteEnabled())
            && (app.lifecycle == Ready && app.configuration == Closed && app.scx == Hidden
                ==> (app.ExecuteEnabled() <==> app.Phase() == PhaseSelectionChanged))
  {
    BootedInv();
    RunInv(BOOTED, run);
    PhaseOf(After(BOOTED, run));
  }
}
