/** The sched-ext window: its initialisation, its flags field and the apply decision
    (crates/cachyos-kernel-manager-scx/src/config.rs, window.rs and apply.rs,
    crates/cachyos-kernel-manager-ui/src/scx_window.rs). */
module SchedExt {
  import opened Text

  datatype SupportedSched = Bpfland | Rusty | Lavd | Flash
  {
    function Name(): string {
      match this
      case Bpfland => "scx_bpfland"
      case Rusty => "scx_rusty"
      case Lavd => "scx_lavd"
      case Flash => "scx_flash"
    }
  }

  function ParseSched(name: string): Option<SupportedSched> {
    if name == "scx_bpfland" then Some(Bpfland)
    else if name == "scx_rusty" then Some(Rusty)
    else if name == "scx_lavd" then Some(Lavd)
    else if name == "scx_flash" then Some(Flash)
    else None
  }

  datatype SchedMode = Auto | Gaming | PowerSave | LowLatency | Server
  {
    function Label(): string {
      match this
      case Auto => "Auto"
      case Gaming => "Gaming"
      case PowerSave => "Powersave"
      case LowLatency => "Lowlatency"
      case Server => "Server"
    }
  }

  function ModeFromLabel(text: string): SchedMode {
    if text == "Gaming" then Gaming
    else if text == "Lowlatency" then LowLatency
    else if text == "Powersave" then PowerSave
    else if text == "Server" then Server
    else Auto
  }

  const PROFILE_ITEMS := ["Auto", "Gaming", "Powersave", "Lowlatency", "Server"]

  datatype SchedFlags = SchedFlags(
    autoMode: Option<seq<string>>, gamingMode: Option<seq<string>>, lowlatencyMode: Option<seq<string>>,
    powersaveMode: Option<seq<string>>, serverMode: Option<seq<string>>)

  datatype SchedConfig = SchedConfig(
    defaultSched: Option<SupportedSched>, defaultMode: Option<SchedMode>, scheds: map<string, SchedFlags>)

  function DefaultFlags(sched: SupportedSched, mode: SchedMode): seq<string> {
    match sched
    case Bpfland =>
      (match mode
       case Gaming => ["-m", "performance"]
       case LowLatency => ["-s", "5000", "-S", "500", "-l", "5000", "-m", "performance"]
       case PowerSave => ["-m", "powersave"]
       case Server => ["-p"]
       case Auto => [])
    case Lavd =>
      (match mode
       case Gaming | LowLatency => ["--performance"]
       case PowerSave => ["--powersave"]
       case Server | Auto => [])
    case Rusty | Flash => []
  }

  function FlagsField(flags: SchedFlags, mode: SchedMode): Option<seq<string>> {
    match mode
    case Gaming => flags.gamingMode
    case LowLatency => flags.lowlatencyMode
    case PowerSave => flags.powersaveMode
    case Server => flags.serverMode
    case Auto => flags.autoMode
  }

  /** The configured flags of the mode, else the built-in ones. */
  function FlagsForMode(config: SchedConfig, sched: SupportedSched, mode: SchedMode): seq<string> {
    if sched.Name() in config.scheds && FlagsField(config.scheds[sched.Name()], mode).Some?
    then FlagsField(config.scheds[sched.Name()], mode).value
    else DefaultFlags(sched, mode)
  }

  /** A scheduler's configured flags count, mode by mode; without an entry for scheduler or mode the
      built-in ones do. */
  lemma FlagsExactly(config: SchedConfig, sched: SupportedSched, flags: SchedFlags)
    ensures sched.Name() !in config.scheds ==> forall mode: SchedMode :: FlagsForMode(config, sched, mode) == DefaultFlags(sched, mode)
    ensures sched.Name() in config.scheds && config.scheds[sched.Name()] == flags ==>
              && (flags.autoMode.Some? ==> FlagsForMode(config, sched, Auto) == flags.autoMode.value)
              && (flags.gamingMode.Some? ==> FlagsForMode(config, sched, Gaming) == flags.gamingMode.value)
              && (flags.lowlatencyMode.Some? ==> FlagsForMode(config, sched, LowLatency) == flags.lowlatencyMode.value)
              && (flags.powersaveMode.Some? ==> FlagsForMode(config, sched, PowerSave) == flags.powersaveMode.value)
              && (flags.serverMode.Some? ==> FlagsForMode(config, sched, Server) == flags.serverMode.value)
              && forall mode: SchedMode :: FlagsField(flags, mode).None? ==> FlagsForMode(config, sched, mode) == DefaultFlags(sched, mode)
  {
  }

  // ---------- the default configuration ----------

  const SCHEDS := [Bpfland, Rusty, Lavd, Flash]
  const MODES := [Auto, Gaming, PowerSave, LowLatency, Server]

  function SetField(flags: SchedFlags, mode: SchedMode, value: seq<string>): SchedFlags {
    match mode
    case Auto => flags.(autoMode := Some(value))
    case Gaming => flags.(gamingMode := Some(value))
    case PowerSave => flags.(powersaveMode := Some(value))
    case LowLatency => flags.(lowlatencyMode := Some(value))
    case Server => flags.(serverMode := Some(value))
  }

  /** The scheduler is listed with the built-in flags of every mode. */
  predicate ListsDefaults(scheds: map<string, SchedFlags>, sched: SupportedSched) {
    sched.Name() in scheds
    && forall mode: SchedMode :: FlagsField(scheds[sched.Name()], mode) == Some(DefaultFlags(sched, mode))
  }

  method DefaultConfig() returns (config: SchedConfig)
    ensures config.defaultSched == None && config.defaultMode == Some(Auto)
    ensures forall sched: SupportedSched :: ListsDefaults(config.scheds, sched)
  {
    var scheds: map<string, SchedFlags> := map[];
    for i := 0 to |SCHEDS|
      invariant forall j | 0 <= j < i :: ListsDefaults(scheds, SCHEDS[j])
    {
      var flags := SchedFlags(None, None, None, None, None);
      for k := 0 to |MODES|
        invariant forall j | 0 <= j < k :: FlagsField(flags, MODES[j]) == Some(DefaultFlags(SCHEDS[i], MODES[j]))
      {
        flags := SetField(flags, MODES[k], DefaultFlags(SCHEDS[i], MODES[k]));
      }
      forall mode: SchedMode ensures FlagsField(flags, mode) == Some(DefaultFlags(SCHEDS[i], mode)) {
        ModeListed(mode);
      }
      forall j | 0 <= j < i ensures SCHEDS[j].Name() != SCHEDS[i].Name() {
        ParseName(SCHEDS[j]);
        ParseName(SCHEDS[i]);
      }
      scheds := scheds[SCHEDS[i].Name() := flags];
    }
    forall sched: SupportedSched ensures ListsDefaults(scheds, sched) {
      SchedListed(sched);
    }
    config := SchedConfig(None, Some(Auto), scheds);
  }

  lemma ModeListed(mode: SchedMode)
    ensures exists k :: 0 <= k < |MODES| && MODES[k] == mode
  {
    assert MODES[0] == Auto && MODES[1] == Gaming && MODES[2] == PowerSave && MODES[3] == LowLatency && MODES[4] == Server;
  }

  lemma SchedListed(sched: SupportedSched)
    ensures exists k :: 0 <= k < |SCHEDS| && SCHEDS[k] == sched
  {
    assert SCHEDS[0] == Bpfland && SCHEDS[1] == Rusty && SCHEDS[2] == Lavd && SCHEDS[3] == Flash;
  }

  // ---------- the window ----------

  function ProfileUiVisible(scheduler: string): bool {
    scheduler == "scx_bpfland" || scheduler == "scx_lavd"
  }

  function SchedOr(name: string): SupportedSched {
    var s := ParseSched(name);
    if s.Some? then s.value else Bpfland
  }

  function FlagsText(config: SchedConfig, scheduler: string, profile: string): string {
    Join(FlagsForMode(config, SchedOr(scheduler), ModeFromLabel(profile)), ' ')
  }

  datatype InitInput = InitInput(
    configInitFailed: bool, supportedScheds: Option<seq<string>>, config: SchedConfig, currentSchedulerLabel: string)

  datatype InitStep =
    | CriticalConfigInit
    | SchedulerCombo(items: seq<string>)
    | CriticalNoLoader
    | InitialScheduler(scheduler: Option<string>)
    | ProfileCombo
    | InitialProfile(mode: Option<SchedMode>)
    | CurrentSchedulerLabel(text: string)
    | ProfileVisibility(visible: bool)
    | InitialFlags(flags: string)

  function SchedName(s: Option<SupportedSched>): Option<string> {
    if s.Some? then Some(s.value.Name()) else None
  }

  method WindowInit(input: InitInput) returns (steps: seq<InitStep>)
    ensures input.configInitFailed ==> steps == [CriticalConfigInit]
    ensures !input.configInitFailed && input.supportedScheds.None? ==> steps == [CriticalNoLoader]
    ensures !input.configInitFailed && input.supportedScheds.Some? ==> steps == ReadySteps(input)
  {
    steps := [];
    if input.configInitFailed {
      steps := steps + [CriticalConfigInit];
      return;
    }
    match input.supportedScheds {
      case Some(items) =>
        steps := steps + [SchedulerCombo(items)];
        steps := steps + [InitialScheduler(SchedName(input.config.defaultSched))];
        steps := steps + [ProfileCombo];
        steps := steps + [InitialProfile(input.config.defaultMode)];
        steps := steps + [CurrentSchedulerLabel(input.currentSchedulerLabel)];
        var initialSched := if input.config.defaultSched.Some? then input.config.defaultSched.value.Name() else "";
        steps := steps + [ProfileVisibility(ProfileUiVisible(initialSched))];
        var initialMode := if input.config.defaultMode.Some? then input.config.defaultMode.value else Auto;
        var flags := FlagsForMode(input.config, SchedOr(initialSched), initialMode);
        steps := steps + [InitialFlags(Join(flags, ' '))];
      case None =>
        steps := steps + [CriticalNoLoader];
    }
  }

  function NameOrEmpty(s: Option<SupportedSched>): string {
    if s.Some? then s.value.Name() else ""
  }

  function ModeOrAuto(m: Option<SchedMode>): SchedMode {
    if m.Some? then m.value else Auto
  }

  /** The steps of a successful initialisation. */
  function ReadySteps(input: InitInput): seq<InitStep>
    requires input.supportedScheds.Some?
  {
    var c := input.config;
    [SchedulerCombo(input.supportedScheds.value), InitialScheduler(SchedName(c.defaultSched)), ProfileCombo,
     InitialProfile(c.defaultMode), CurrentSchedulerLabel(input.currentSchedulerLabel),
     ProfileVisibility(ProfileUiVisible(NameOrEmpty(c.defaultSched))),
     InitialFlags(Join(FlagsForMode(c, SchedOr(NameOrEmpty(c.defaultSched)), ModeOrAuto(c.defaultMode)), ' '))]
  }

  /** What the window shows. */
  datatype Shown = Shown(
    schedulers: seq<string>, scheduler: string, runningScheduler: string, enabled: bool,
    profileVisible: bool, profile: string, flags: string, critical: Option<string>)

  const NO_CONFIG := "Cannot initialize scx_loader configuration"
  const NO_LOADER := "Cannot get information from scx_loader!\nIs it working?\nThis is needed for the app to work properly"

  function Blank(profile: string): Shown {
    Shown([], "", "", false, false, profile, "", None)
  }

  function ShowStep(m: Shown, step: InitStep): Shown {
    match step
    case CriticalConfigInit => m.(critical := Some(NO_CONFIG))
    case CriticalNoLoader => m.(critical := Some(NO_LOADER), enabled := false)
    case SchedulerCombo(items) => m.(schedulers := items)
    case InitialScheduler(s) => if s.Some? then m.(scheduler := s.value) else m
    case ProfileCombo => m
    case InitialProfile(mode) => if mode.Some? then m.(profile := mode.value.Label()) else m
    case CurrentSchedulerLabel(text) => m.(runningScheduler := text)
    case ProfileVisibility(visible) => m.(profileVisible := visible)
    case InitialFlags(text) => m.(flags := text, enabled := true)
  }

  predicate Stops(step: InitStep) {
    step.CriticalConfigInit? || step.CriticalNoLoader?
  }

  /** The steps up to and including the first critical one, applied in order. */
  function ShowSteps(m: Shown, steps: seq<InitStep>): Shown
    decreases |steps|
  {
    if steps == [] then m
    else if Stops(steps[0]) then ShowStep(m, steps[0])
    else ShowSteps(ShowStep(m, steps[0]), steps[1..])
  }

  class ScxWindowModel {
    var schedulers: seq<string>
    var scheduler: string
    var runningScheduler: string
    var enabled: bool
    var profileVisible: bool
    var profile: string
    var flags: string
    var critical: Option<string>

    function View(): Shown
      reads this
    {
      Shown(schedulers, scheduler, runningScheduler, enabled, profileVisible, profile, flags, critical)
    }

    constructor FromInitSteps(steps: seq<InitStep>, defaultProfile: string)
      ensures View() == ShowSteps(Blank(defaultProfile), steps)
    {
      schedulers, scheduler, runningScheduler, enabled := [], "", "", false;
      profileVisible, profile, flags, critical := false, defaultProfile, "", None;
      new;
      for i := 0 to |steps|
        invariant ShowSteps(View(), steps[i..]) == ShowSteps(Blank(defaultProfile), steps)
      {
        assert steps[i..][1..] == steps[i + 1..];
        match steps[i] {
          case CriticalConfigInit =>
            critical := Some(NO_CONFIG);
            return;
          case CriticalNoLoader =>
            critical := Some(NO_LOADER);
            enabled := false;
            return;
          case SchedulerCombo(items) => schedulers := items;
          case InitialScheduler(s) =>
            if s.Some? {
              scheduler := s.value;
            }
          case ProfileCombo =>
          case InitialProfile(mode) =>
            if mode.Some? {
              profile := mode.value.Label();
            }
          case CurrentSchedulerLabel(text) => runningScheduler := text;
          case ProfileVisibility(visible) => profileVisible := visible;
          case InitialFlags(text) =>
            flags := text;
            enabled := true;
        }
      }
    }

    method OnSchedChanged(scheduler: string, config: SchedConfig)
      modifies this
      ensures View() == Changed(old(View()), Scheduler(scheduler), config)
    {
      this.scheduler := scheduler;
      profileVisible := ProfileUiVisible(scheduler);
      flags := FlagsText(config, scheduler, profile);
    }

    method OnProfileChanged(profile: string, config: SchedConfig)
      modifies this
      ensures View() == Changed(old(View()), Profile(profile), config)
    {
      this.profile := profile;
      flags := FlagsText(config, scheduler, profile);
    }
  }

  datatype Change = Scheduler(name: string) | Profile(text: string)

  function Changed(m: Shown, change: Change, config: SchedConfig): Shown {
    match change
    case Scheduler(name) =>
      m.(scheduler := name, profileVisible := ProfileUiVisible(name), flags := FlagsText(config, name, m.profile))
    case Profile(text) =>
      m.(profile := text, flags := FlagsText(config, m.scheduler, text))
  }

  function ChangedAll(m: Shown, changes: seq<Change>, config: SchedConfig): Shown {
    if changes == [] then m
    else Changed(ChangedAll(m, changes[..|changes| - 1], config), changes[|changes| - 1], config)
  }

  // ---------- applying ----------

  datatype DbCall =
    | SwitchScheduler(sched: SupportedSched, mode: SchedMode)
    | SwitchSchedulerWithArgs(sched: SupportedSched, args: seq<string>)

  datatype ServiceOp = DisableScxService | StopScxService

  datatype ApplyInput = ApplyInput(
    scxName: string, scxMode: SchedMode, extraFlags: string, config: SchedConfig,
    scxServiceEnabled: bool, scxServiceActive: bool, scxLoaderServiceEnabled: bool, configPath: string)

  datatype ApplyPlan = ApplyPlan(
    scxServiceOp: Option<ServiceOp>, dbCall: DbCall, enableLoader: bool, config: SchedConfig, configPath: string)

  function ApplyConfigMutation(config: SchedConfig, scxName: string, scxMode: SchedMode): SchedConfig {
    config.(defaultSched := ParseSched(scxName), defaultMode := Some(scxMode))
  }

  /** The arguments typed into the flags field. */
  function SplitArgs(text: string): seq<string> {
    if text == "" then [] else Split(text, ' ')
  }

  /** What the window asks the loader to do: the mode by name when the typed arguments are the mode's
      own, else the arguments. */
  function CallOf(input: ApplyInput): DbCall
    requires ParseSched(input.scxName).Some?
  {
    var sched := ParseSched(input.scxName).value;
    if SplitArgs(input.extraFlags) == FlagsForMode(input.config, sched, input.scxMode)
    then SwitchScheduler(sched, input.scxMode)
    else SwitchSchedulerWithArgs(sched, SplitArgs(input.extraFlags))
  }

  /** The name must be one the loader knows. */
  method PlanApply(input: ApplyInput) returns (plan: ApplyPlan)
    requires ParseSched(input.scxName).Some?
    ensures plan.dbCall == CallOf(input)
    ensures plan.scxServiceOp == Some(DisableScxService) <==> input.scxServiceEnabled
    ensures plan.scxServiceOp == Some(StopScxService) <==> input.scxServiceActive && !input.scxServiceEnabled
    ensures plan.enableLoader == !input.scxLoaderServiceEnabled && plan.configPath == input.configPath
    ensures plan.config == ApplyConfigMutation(input.config, input.scxName, input.scxMode)
  {
    var scxServiceOp := if input.scxServiceEnabled then Some(DisableScxService)
                        else if input.scxServiceActive then Some(StopScxService) else None;
    var sched := ParseSched(input.scxName).value;
    var defaultArgs := FlagsForMode(input.config, sched, input.scxMode);
    var schedArgs: seq<string> := [];
    if input.extraFlags != "" {
      schedArgs := schedArgs + Split(input.extraFlags, ' ');
    }
    var dbCall := if schedArgs == defaultArgs then SwitchScheduler(sched, input.scxMode)
                  else SwitchSchedulerWithArgs(sched, schedArgs);
    plan := ApplyPlan(scxServiceOp, dbCall, !input.scxLoaderServiceEnabled,
                      ApplyConfigMutation(input.config, input.scxName, input.scxMode), input.configPath);
  }

  // ---------- printing flags and reading them back ----------

  /** Flags that survive being joined by spaces, trimmed and split again. */
  predicate Recoverable(flags: seq<string>) {
    flags == []
    || ((forall f | f in flags :: ' ' !in f)
        && flags[0] != "" && !IsWhitespace(flags[0][0])
        && var last := flags[|flags| - 1]; last != "" && !IsWhitespace(last[|last| - 1]))
  }

  lemma {:induction false} JoinEnds(parts: seq<string>, c: char)
    requires parts != []
    ensures parts[0] <= Join(parts, c)
    ensures var last, all := parts[|parts| - 1], Join(parts, c);
            |last| <= |all| && all[|all| - |last|..] == last
    ensures |parts| > 1 && parts[0] == "" ==> Join(parts, c) != "" && Join(parts, c)[0] == c
    ensures |parts| > 1 && parts[|parts| - 1] == "" ==> Join(parts, c) != "" && Join(parts, c)[|Join(parts, c)| - 1] == c
  {
    if |parts| > 1 {
      JoinEnds(parts[1..], c);
    }
  }

  lemma {:induction false} FlagsRecoveredExactly(flags: seq<string>)
    ensures SplitArgs(Trim(Join(flags, ' '))) == flags <==> Recoverable(flags)
  {
    var text := Join(flags, ' ');
    TrimFixed(text);
    if flags != [] {
      JoinEnds(flags, ' ');
      if Recoverable(flags) {
        assert text[0] == flags[0][0];
        var last := flags[|flags| - 1];
        assert text[|text| - |last|..][|last| - 1] == last[|last| - 1];
        SplitJoin(flags, ' ');
      } else if SplitArgs(Trim(text)) == flags {
        JoinSplit(Trim(text), ' ');
        assert Trim(text) == text;
        NotRecoverableMeans(flags, text);
      }
    }
  }

  lemma NotRecoverableMeans(flags: seq<string>, text: string)
    requires flags != [] && text == Join(flags, ' ') && text != ""
    requires !IsWhitespace(text[0]) && !IsWhitespace(text[|text| - 1])
    requires forall f | f in flags :: ' ' !in f
    ensures Recoverable(flags)
  {
    JoinEnds(flags, ' ');
    var last := flags[|flags| - 1];
    if flags[0] != "" {
      assert text[0] == flags[0][0];
    }
    if last != "" {
      assert text[|text| - |last|..][|last| - 1] == last[|last| - 1];
    }
  }

  lemma DefaultFlagsRecoverable(sched: SupportedSched, mode: SchedMode)
    ensures Recoverable(DefaultFlags(sched, mode))
  {
  }

  // ---------- whole sessions of the window ----------

  predicate Consistent(m: Shown, config: SchedConfig) {
    m.flags == FlagsText(config, m.scheduler, m.profile)
  }

  lemma ParseName(s: SupportedSched)
    ensures ParseSched(s.Name()) == Some(s)
  {
  }

  lemma LabelRoundTrip(mode: SchedMode)
    ensures ModeFromLabel(mode.Label()) == mode
  {
  }

  /** A successful initialisation shows the configured scheduler, profile and flags. */
  lemma {:induction false} InitShows(input: InitInput, defaultProfile: string)
    requires input.supportedScheds.Some?
    ensures var c, m := input.config, ShowSteps(Blank(defaultProfile), ReadySteps(input));
            && m.schedulers == input.supportedScheds.value && m.enabled && m.critical.None?
            && m.scheduler == NameOrEmpty(c.defaultSched)
            && m.profile == (if c.defaultMode.Some? then c.defaultMode.value.Label() else defaultProfile)
            && m.profileVisible == ProfileUiVisible(m.scheduler)
            && m.flags == Join(FlagsForMode(c, SchedOr(m.scheduler), ModeOrAuto(c.defaultMode)), ' ')
  {
    FoldReady(Blank(defaultProfile), ReadySteps(input));
    hide ShowSteps, FlagsForMode, Join;
  }

  /** A failed initialisation shows its message in an otherwise untouched, disabled window. */
  lemma InitFails(profile: string)
    ensures ShowSteps(Blank(profile), [CriticalConfigInit])
            == Blank(profile).(critical := Some("Cannot initialize scx_loader configuration"))
    ensures ShowSteps(Blank(profile), [CriticalNoLoader]).critical == Some(NO_LOADER)
    ensures ShowSteps(Blank(profile), [CriticalNoLoader]) == Blank(profile).(critical := Some(NO_LOADER))
  {
  }

  lemma ShowFrom(m: Shown, steps: seq<InitStep>, i: nat)
    requires i < |steps| && !Stops(steps[i])
    ensures ShowSteps(m, steps[i..]) == ShowSteps(ShowStep(m, steps[i]), steps[i + 1..])
  {
    assert steps[i..][1..] == steps[i + 1..];
  }

  /** Two steps at once. */
  lemma ShowTwo(m: Shown, steps: seq<InitStep>, i: nat)
    requires i + 1 < |steps| && !Stops(steps[i]) && !Stops(steps[i + 1])
    ensures ShowSteps(m, steps[i..]) == ShowSteps(ShowStep(ShowStep(m, steps[i]), steps[i + 1]), steps[i + 2..])
  {
    hide ShowSteps, ShowStep;
    ShowFrom(m, steps, i);
    ShowFrom(ShowStep(m, steps[i]), steps, i + 1);
  }

  lemma {:induction false} FoldReady(m: Shown, steps: seq<InitStep>)
    requires |steps| == 7 && forall i | 0 <= i < 7 :: !Stops(steps[i])
    ensures ShowSteps(m, steps)
            == ShowStep(ShowStep(ShowStep(ShowStep(ShowStep(ShowStep(ShowStep(
                 m, steps[0]), steps[1]), steps[2]), steps[3]), steps[4]), steps[5]), steps[6])
  {
    var m2 := ShowStep(ShowStep(m, steps[0]), steps[1]);
    var m4 := ShowStep(ShowStep(m2, steps[2]), steps[3]);
    var m6 := ShowStep(ShowStep(m4, steps[4]), steps[5]);
    assert steps[0..] == steps && steps[7..] == [];
    var m7 := ShowStep(m6, steps[6]);
    assert ShowSteps(m7, []) == m7;
    hide ShowSteps, ShowStep;
    ShowTwo(m, steps, 0);
    ShowTwo(m2, steps, 2);
    ShowTwo(m4, steps, 4);
    ShowFrom(m6, steps, 6);
  }

  /** What the window shows after a successful initialisation and some changes. */
  function Session(input: InitInput, defaultProfile: string, changes: seq<Change>): Shown
    requires input.supportedScheds.Some?
  {
    ChangedAll(ShowSteps(Blank(defaultProfile), ReadySteps(input)), changes, input.config)
  }

  /** The initialisation takes the flags of Auto when no mode is configured, whatever profile it is
      told to show; the first change puts that right. */
  predicate Follows(input: InitInput, defaultProfile: string, changes: seq<Change>) {
    changes != [] || input.config.defaultMode.Some? || ModeFromLabel(defaultProfile) == Auto
  }

  lemma {:induction false} VisibilityFollows(input: InitInput, defaultProfile: string, changes: seq<Change>)
    requires input.supportedScheds.Some?
    ensures var m := Session(input, defaultProfile, changes); m.profileVisible == ProfileUiVisible(m.scheduler)
  {
    if changes == [] {
      InitShows(input, defaultProfile);
    } else {
      VisibilityFollows(input, defaultProfile, changes[..|changes| - 1]);
    }
  }

  /** After initialisation and any changes under one configuration the flags field shows the flags of
      the selected scheduler and profile, exactly unless nothing was changed, no mode is configured,
      and the profile shown has other flags than Auto. */
  lemma {:induction false} FlagsFollowSelection(input: InitInput, defaultProfile: string, changes: seq<Change>)
    requires input.supportedScheds.Some?
    ensures var m, c := Session(input, defaultProfile, changes), input.config;
            && (Consistent(m, c)
                <==> Follows(input, defaultProfile, changes)
                     || FlagsText(c, NameOrEmpty(c.defaultSched), "Auto") == FlagsText(c, NameOrEmpty(c.defaultSched), defaultProfile))
            && (!Follows(input, defaultProfile, changes) ==> m.flags == FlagsText(c, m.scheduler, "Auto"))
            && m.profileVisible == ProfileUiVisible(m.scheduler)
  {
    VisibilityFollows(input, defaultProfile, changes);
    if changes == [] {
      InitShows(input, defaultProfile);
      if input.config.defaultMode.Some? {
        LabelRoundTrip(input.config.defaultMode.value);
      }
    }
  }

  /** What Apply reads off an untouched window. */
  function ApplyOf(m: Shown, config: SchedConfig, enabled: bool, active: bool, loader: bool, path: string): ApplyInput {
    ApplyInput(m.scheduler, ModeFromLabel(m.profile), Trim(m.flags), config, enabled, active, loader, path)
  }

  /** An unmodified Apply is a mode switch exactly when the mode's flags survive the text field - or,
      where the field still shows those of Auto, when these are read back as the mode's. */
  lemma {:induction false} ApplyUnmodified(input: InitInput, defaultProfile: string, changes: seq<Change>,
                                           enabled: bool, active: bool, loader: bool, path: string)
    requires input.supportedScheds.Some?
    requires ParseSched(Session(input, defaultProfile, changes).scheduler).Some?
    ensures var m := Session(input, defaultProfile, changes);
            var sched, mode := ParseSched(m.scheduler).value, ModeFromLabel(m.profile);
            CallOf(ApplyOf(m, input.config, enabled, active, loader, path)) == SwitchScheduler(sched, mode)
            <==> if Follows(input, defaultProfile, changes) then Recoverable(FlagsForMode(input.config, sched, mode))
                 else SplitArgs(Trim(Join(FlagsForMode(input.config, sched, Auto), ' '))) == FlagsForMode(input.config, sched, mode)
  {
    var m := Session(input, defaultProfile, changes);
    FlagsFollowSelection(input, defaultProfile, changes);
    FlagsRecoveredExactly(FlagsForMode(input.config, ParseSched(m.scheduler).value, ModeFromLabel(m.profile)));
    hide Session, Follows, FlagsForMode, Recoverable, SplitArgs, Trim, Join, ParseSched;
  }

  /** A configuration whose gaming flags are one flag with a space in it. */
  const SPACED := SchedConfig(
    Some(Bpfland), Some(Gaming), map["scx_bpfland" := SchedFlags(None, Some(["-m performance"]), None, None, None)])

  lemma {:induction false} SpacedSplits()
    ensures SplitArgs(Trim(Join(["-m performance"], ' '))) == ["-m", "performance"]
  {
    var text, first, second := "-m performance", "-m", "performance";
    assert Join([text], ' ') == text && !IsWhitespace(text[0]) && !IsWhitespace(text[13]);
    TrimFixed(text);
    hide Split, Trim, IsWhitespace;
    assert text == first + [' '] + second;
    assert ' ' !in first && ' ' !in second;
    SplitHead(first, ' ', second);
    SplitHead(second, ' ', "");
  }

  /** Applied unmodified, it is no mode switch. */
  lemma {:induction false} SpacedFlagNotRecovered(
      items: seq<string>, running: string, profile: string, enabled: bool, active: bool, loader: bool, path: string)
    ensures var m := Session(InitInput(false, Some(items), SPACED, running), profile, []);
            && m.scheduler == "scx_bpfland" && m.profile == "Gaming"
            && CallOf(ApplyOf(m, SPACED, enabled, active, loader, path)) == SwitchSchedulerWithArgs(Bpfland, ["-m", "performance"])
  {
    InitShows(InitInput(false, Some(items), SPACED, running), profile);
    assert FlagsForMode(SPACED, Bpfland, Gaming) == ["-m performance"];
    SpacedSplits();
    hide SplitArgs, Trim, Join, FlagsForMode, ShowSteps, ReadySteps;
  }

  /** Opening the window again on the configuration an Apply wrote shows the same scheduler and
      flags, and the same profile exactly when the profile was one of the listed ones. */
  lemma {:induction false} ReopenShowsSame(m: Shown, config: SchedConfig, items: seq<string>, running: string, defaultProfile: string)
    requires Consistent(m, config) && ParseSched(m.scheduler).Some?
    ensures var written := ApplyConfigMutation(config, m.scheduler, ModeFromLabel(m.profile));
            var again := ShowSteps(Blank(defaultProfile), ReadySteps(InitInput(false, Some(items), written, running)));
            && again.scheduler == m.scheduler && again.flags == m.flags
            && (again.profile == m.profile <==> m.profile in PROFILE_ITEMS)
            && ModeFromLabel(again.profile) == ModeFromLabel(m.profile)
  {
    var mode := ModeFromLabel(m.profile);
    var written := ApplyConfigMutation(config, m.scheduler, mode);
    var input := InitInput(false, Some(items), written, running);
    InitShows(input, defaultProfile);
    LabelRoundTrip(mode);
    NameOfParsed(m.scheduler);
    LabelsListed(m.profile);
    assert FlagsForMode(written, SchedOr(m.scheduler), mode) == FlagsForMode(config, SchedOr(m.scheduler), mode);
  }

  /** In the program the first profile is "Auto" and a profile is picked from the list: there the flags
      always follow the selection, and reopening on what an Apply wrote shows scheduler, profile and
      flags unchanged. */
  lemma {:induction false} ProgramSessions(input: InitInput, changes: seq<Change>, items: seq<string>, running: string)
    requires input.supportedScheds.Some?
    requires forall change | change in changes && change.Profile? :: change.text in PROFILE_ITEMS
    ensures var m, c := Session(input, "Auto", changes), input.config;
            && Consistent(m, c) && m.profile in PROFILE_ITEMS
            && (ParseSched(m.scheduler).Some? ==>
                  var written := ApplyConfigMutation(c, m.scheduler, ModeFromLabel(m.profile));
                  var again := Session(InitInput(false, Some(items), written, running), "Auto", []);
                  again.scheduler == m.scheduler && again.profile == m.profile && again.flags == m.flags)
  {
    var m := Session(input, "Auto", changes);
    FlagsFollowSelection(input, "Auto", changes);
    ProfilesListed(input, changes);
    if ParseSched(m.scheduler).Some? {
      ReopenShowsSame(m, input.config, items, running, "Auto");
    }
  }

  lemma {:induction false} ProfilesListed(input: InitInput, changes: seq<Change>)
    requires input.supportedScheds.Some?
    requires forall change | change in changes && change.Profile? :: change.text in PROFILE_ITEMS
    ensures Session(input, "Auto", changes).profile in PROFILE_ITEMS
  {
    if changes == [] {
      InitShows(input, "Auto");
      LabelsListed("Auto");
      if input.config.defaultMode.Some? {
        LabelRoundTrip(input.config.defaultMode.value);
        LabelsListed(input.config.defaultMode.value.Label());
      }
    } else {
      ProfilesListed(input, changes[..|changes| - 1]);
    }
  }

  lemma NameOfParsed(name: string)
    requires ParseSched(name).Some?
    ensures ParseSched(name).value.Name() == name
  {
  }

  lemma LabelsListed(text: string)
    ensures ModeFromLabel(text).Label() == text <==> text in PROFILE_ITEMS
  {
    assert PROFILE_ITEMS[0] == "Auto" && PROFILE_ITEMS[1] == "Gaming" && PROFILE_ITEMS[2] == "Powersave"
           && PROFILE_ITEMS[3] == "Lowlatency" && PROFILE_ITEMS[4] == "Server";
  }
}
