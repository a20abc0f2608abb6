/** The Configure window's controls
    (crates/cachyos-kernel-manager-core/src/options.rs,
    crates/cachyos-kernel-manager-ui/src/configure_window.rs). */
module ConfigureWindow {
  import opened Text
  import opened Sequences
  import opened Options
  import Pkgbuild

  // ---------- what a variant offers ----------

  datatype VariantTransitions = VariantTransitions(
    ltoThinDist: bool, extendedPreempt: bool, ltoDefault: LtoMode, preemptDefault: PreemptMode,
    hzDefault: HzTick, cachyConfigDefault: bool, zfsEnabled: bool)

  /** The stateless table of variant rules. */
  function Transitions(v: KernelVariant): VariantTransitions {
    VariantTransitions(
      !v.Lts? && !v.Hardened?,
      v.Hardened? || v.Lts?,
      if v.Cachyos? || v.Rc? then LtoThin else LtoNone,
      if v.Server? then PreemptLazy else PreemptFull,
      if v.Server? then Hz300 else Hz1000,
      !v.Server?,
      !v.Rt?)
  }

  const LTO_BASE := [LtoNone, LtoFull, LtoThin]
  const PREEMPT_BASE := [PreemptFull, PreemptLazy]

  function LtoItems(v: KernelVariant): seq<LtoMode> {
    LTO_BASE + (if Transitions(v).ltoThinDist then [LtoThinDist] else [])
  }

  function PreemptItems(v: KernelVariant): seq<PreemptMode> {
    PREEMPT_BASE + (if Transitions(v).extendedPreempt then [PreemptVoluntary, PreemptNone] else [])
  }

  /** The values of the variant-dependent controls. */
  datatype Controls = Controls(
    ltoItems: seq<LtoMode>, ltoSelected: LtoMode, preemptItems: seq<PreemptMode>, preemptSelected: PreemptMode,
    hzSelected: HzTick, cachyConfigChecked: bool, zfsChecked: bool, zfsEnabled: bool)

  /** The controls as the table prescribes them for a variant. */
  function Table(v: KernelVariant, zfsChecked: bool): Controls {
    var t := Transitions(v);
    Controls(LtoItems(v), t.ltoDefault, PreemptItems(v), t.preemptDefault, t.hzDefault, t.cachyConfigDefault,
             zfsChecked, t.zfsEnabled)
  }

  // ---------- the stateful switch ----------

  /** Item lists are adjusted by count, and ZFS is only ever unchecked. */
  function Switched(c: Controls, v: KernelVariant): Controls {
    var thinDist := !v.Lts? && !v.Hardened?;
    var extended := v.Hardened? || v.Lts?;
    var n, m := |c.ltoItems|, |c.preemptItems|;
    Controls(
      if thinDist && n == 3 then c.ltoItems + [LtoThinDist] else if !thinDist && n == 4 then c.ltoItems[..3] else c.ltoItems,
      if v.Cachyos? || v.Rc? then LtoThin else LtoNone,
      if extended && m == 2 then c.preemptItems + [PreemptVoluntary, PreemptNone]
      else if !extended && m == 4 then c.preemptItems[..2] else c.preemptItems,
      if v.Server? then PreemptLazy else PreemptFull,
      if v.Server? then Hz300 else Hz1000,
      !v.Server?,
      c.zfsChecked && !v.Rt?,
      !v.Rt?)
  }

  class VariantSwitchState {
    var ltoItems: seq<LtoMode>
    var ltoSelected: LtoMode
    var preemptItems: seq<PreemptMode>
    var preemptSelected: PreemptMode
    var hzSelected: HzTick
    var cachyConfigChecked: bool
    var zfsChecked: bool
    var zfsEnabled: bool

    function View(): Controls
      reads this
    {
      Controls(ltoItems, ltoSelected, preemptItems, preemptSelected, hzSelected, cachyConfigChecked, zfsChecked, zfsEnabled)
    }

    constructor ()
      ensures View() == Table(Cachyos, false)
    {
      ltoItems, ltoSelected := [LtoNone, LtoFull, LtoThin, LtoThinDist], LtoThin;
      preemptItems, preemptSelected := [PreemptFull, PreemptLazy], PreemptFull;
      hzSelected, cachyConfigChecked, zfsChecked, zfsEnabled := Hz1000, true, false, true;
    }

    /** The part of a load that concerns these controls. */
    method Load(config: Config) returns (outdated: bool)
      modifies this
      ensures View() == LoadedControls(old(View()), config)
      ensures outdated <==> FindLto(old(ltoItems), config.lto).None?
                            || FindPreempt(old(preemptItems), config.preempt).None? || FindHz(config.hzTicks).None?
    {
      outdated := false;
      match FindLto(ltoItems, config.lto) {
        case Some(l) => ltoSelected := l;
        case None => outdated := true;
      }
      match FindPreempt(preemptItems, config.preempt) {
        case Some(p) => preemptSelected := p;
        case None => outdated := true;
      }
      match FindHz(config.hzTicks) {
        case Some(h) => hzSelected := h;
        case None => outdated := true;
      }
      cachyConfigChecked := config.cachyConfig;
      zfsChecked := config.builtinZfs;
    }

    method SwitchTo(variant: KernelVariant)
      modifies this
      ensures View() == Switched(old(View()), variant)
    {
      ghost var next := Switched(View(), variant);
      var hasThinDist := !variant.Lts? && !variant.Hardened?;
      if hasThinDist && |ltoItems| == 3 {
        ltoItems := ltoItems + [LtoThinDist];
      } else if !hasThinDist && |ltoItems| == 4 {
        ltoItems := ltoItems[..|ltoItems| - 1];
      }
      assert ltoItems == next.ltoItems;
      ltoSelected := if variant.Cachyos? || variant.Rc? then LtoThin else LtoNone;
      var hasExtendedPreempt := variant.Hardened? || variant.Lts?;
      if hasExtendedPreempt && |preemptItems| == 2 {
        preemptItems := preemptItems + [PreemptVoluntary];
        preemptItems := preemptItems + [PreemptNone];
      } else if !hasExtendedPreempt && |preemptItems| == 4 {
        preemptItems := preemptItems[..|preemptItems| - 1];
        preemptItems := preemptItems[..|preemptItems| - 1];
      }
      assert preemptItems == next.preemptItems;
      preemptSelected := if variant.Server? then PreemptLazy else PreemptFull;
      hzSelected := if variant.Server? then Hz300 else Hz1000;
      cachyConfigChecked := !variant.Server?;
      zfsEnabled := !variant.Rt?;
      if variant.Rt? {
        zfsChecked := false;
      }
    }
  }

  /** The item lists are those of some variants. */
  ghost predicate ItemsKept(c: Controls) {
    exists v, w :: c.ltoItems == LtoItems(v) && c.preemptItems == PreemptItems(w)
  }

  lemma SwitchMeetsTable(c: Controls, v: KernelVariant)
    requires ItemsKept(c)
    ensures Switched(c, v) == Table(v, c.zfsChecked && !v.Rt?)
  {
    assert LTO_BASE + [] == LTO_BASE && PREEMPT_BASE + [] == PREEMPT_BASE;
  }

  function SwitchAll(c: Controls, variants: seq<KernelVariant>): Controls {
    if variants == [] then c
    else Switched(SwitchAll(c, variants[..|variants| - 1]), variants[|variants| - 1])
  }

  /** After any sequence of switches the controls are the table's for the last variant; ZFS stays
      checked only if it was and no switch went through Rt. */
  lemma {:induction false} SwitchesMeetTable(c: Controls, variants: seq<KernelVariant>)
    requires ItemsKept(c)
    ensures ItemsKept(SwitchAll(c, variants))
    ensures variants != [] ==>
              SwitchAll(c, variants) == Table(variants[|variants| - 1], c.zfsChecked && Rt !in variants)
  {
    if variants != [] {
      var n := |variants| - 1;
      SwitchesMeetTable(c, variants[..n]);
      SwitchMeetsTable(SwitchAll(c, variants[..n]), variants[n]);
      assert variants == variants[..n] + [variants[n]];
    }
  }

  // ---------- saving and loading ----------

  datatype Config = Config(
    hardly: bool, perGov: bool, tcpBbr3: bool, cachyConfig: bool, nconfig: bool, xconfig: bool,
    localmodcfg: bool, useCurrent: bool, builtinZfs: bool, builtinNvidiaOpen: bool, buildDebug: bool,
    hzTicks: string, tickrate: string, preempt: string, hugepage: string, lto: string, cpuOpt: string,
    customName: string)

  /** The checkboxes and combos no variant touches. */
  datatype Fixed = Fixed(
    hardly: bool, perGov: bool, tcpBbr3: bool, nconfig: bool, xconfig: bool, localmodcfg: bool,
    useCurrent: bool, builtinNvidiaOpen: bool, buildDebug: bool,
    tickless: TicklessMode, hugepage: HugepageMode, cpuOpt: CpuOptMode, customName: string)

  datatype Window = Window(variant: KernelVariant, controls: Controls, fixed: Fixed, patches: seq<string>)

  function ToConfig(w: Window): Config {
    var c, f := w.controls, w.fixed;
    Config(f.hardly, f.perGov, f.tcpBbr3, c.cachyConfigChecked, f.nconfig, f.xconfig, f.localmodcfg,
           f.useCurrent, c.zfsChecked, f.builtinNvidiaOpen, f.buildDebug,
           c.hzSelected.Value(), f.tickless.Value(), c.preemptSelected.Value(), f.hugepage.Value(),
           c.ltoSelected.Value(), f.cpuOpt.Value(), f.customName)
  }

  /** The first item of that value. */
  function FindValue<T>(items: seq<T>, value: T -> string, text: string): (r: Option<T>)
    ensures r.Some? ==> r.value in items && value(r.value) == text
    ensures r.None? ==> forall x | x in items :: value(x) != text
  {
    if items == [] then None
    else if value(items[0]) == text then Some(items[0])
    else FindValue(items[1..], value, text)
  }

  function GetOr<T>(o: Option<T>, default: T): T {
    if o.Some? then o.value else default
  }

  const HZ_ALL := [Hz1000, Hz750, Hz600, Hz500, Hz300, Hz250, Hz100]
  const TICKLESS_ALL := [TicklessFull, TicklessIdle, TicklessPeriodic]
  const HUGEPAGE_ALL := [HugepageAlways, HugepageMadvise]
  const CPU_ALL := [CpuManual, CpuNative, CpuGenericV1, CpuGenericV2, CpuGenericV3, CpuGenericV4, CpuZen4]

  function FindTickless(text: string): Option<TicklessMode> {
    FindValue(TICKLESS_ALL, (x: TicklessMode) => x.Value(), text)
  }

  function FindHugepage(text: string): Option<HugepageMode> {
    FindValue(HUGEPAGE_ALL, (x: HugepageMode) => x.Value(), text)
  }

  function FindCpuOpt(text: string): Option<CpuOptMode> {
    FindValue(CPU_ALL, (x: CpuOptMode) => x.Value(), text)
  }

  function FindHz(text: string): Option<HzTick> {
    FindValue(HZ_ALL, (x: HzTick) => x.Value(), text)
  }

  function FindLto(items: seq<LtoMode>, text: string): Option<LtoMode> {
    FindValue(items, (x: LtoMode) => x.Value(), text)
  }

  function FindPreempt(items: seq<PreemptMode>, text: string): Option<PreemptMode> {
    FindValue(items, (x: PreemptMode) => x.Value(), text)
  }

  /** The six combo lookups of a load, in order. */
  datatype Lookups = Lookups(
    tickless: Option<TicklessMode>, hugepage: Option<HugepageMode>, cpuOpt: Option<CpuOptMode>,
    lto: Option<LtoMode>, preempt: Option<PreemptMode>, hz: Option<HzTick>)
  {
    predicate Complete() {
      tickless.Some? && hugepage.Some? && cpuOpt.Some? && lto.Some? && preempt.Some? && hz.Some?
    }
  }

  function Look(c: Controls, config: Config): Lookups {
    Lookups(FindTickless(config.tickrate), FindHugepage(config.hugepage), FindCpuOpt(config.cpuOpt),
            FindLto(c.ltoItems, config.lto), FindPreempt(c.preemptItems, config.preempt), FindHz(config.hzTicks))
  }

  /** A load keeps the current choice of every combo whose stored value it does not find. */
  function LoadedControls(c: Controls, config: Config): Controls {
    c.(ltoSelected := GetOr(FindLto(c.ltoItems, config.lto), c.ltoSelected),
       preemptSelected := GetOr(FindPreempt(c.preemptItems, config.preempt), c.preemptSelected),
       hzSelected := GetOr(FindHz(config.hzTicks), c.hzSelected),
       cachyConfigChecked := config.cachyConfig, zfsChecked := config.builtinZfs)
  }

  function LoadedFixed(f: Fixed, config: Config): Fixed {
    Fixed(config.hardly, config.perGov, config.tcpBbr3, config.nconfig, config.xconfig,
          config.localmodcfg, config.useCurrent, config.builtinNvidiaOpen, config.buildDebug,
          GetOr(FindTickless(config.tickrate), f.tickless), GetOr(FindHugepage(config.hugepage), f.hugepage),
          GetOr(FindCpuOpt(config.cpuOpt), f.cpuOpt), config.customName)
  }

  function Loaded(w: Window, config: Config): Window {
    w.(controls := LoadedControls(w.controls, config), fixed := LoadedFixed(w.fixed, config))
  }

  /** The entries of a source array that are patches. */
  function PatchesOf(sources: seq<string>): seq<string> {
    if sources == [] then []
    else (if Pkgbuild.IsPatch(sources[0]) then [sources[0]] else []) + PatchesOf(sources[1..])
  }

  /** They are kept in order. */
  lemma {:induction false} PatchesExactly(sources: seq<string>) returns (origin: seq<nat>)
    ensures Sifts(sources, Pkgbuild.IsPatch, Same, PatchesOf(sources), origin)
  {
    hide Sifts, Pkgbuild.IsPatch;
    if sources == [] {
      origin := [];
      SiftsNone(Pkgbuild.IsPatch, Same);
    } else {
      var rest := PatchesOf(sources[1..]);
      origin := PatchesExactly(sources[1..]);
      origin := SiftsCons(sources[0], sources[1..], Pkgbuild.IsPatch, Same, rest, origin);
      assert sources == [sources[0]] + sources[1..];
      assert PatchesOf(sources) == if Pkgbuild.IsPatch(sources[0]) then [Same(sources[0])] + rest else rest;
    }
  }

  class ConfigureWindowModel {
    var variant: KernelVariant
    const switch: VariantSwitchState
    var fixed: Fixed
    var patches: seq<string>

    function View(): Window
      reads this, switch
    {
      Window(variant, switch.View(), fixed, patches)
    }

    constructor ()
      ensures View() == DEFAULT_WINDOW
      ensures fresh(switch)
    {
      variant := Cachyos;
      switch := new VariantSwitchState();
      fixed := DEFAULT_WINDOW.fixed;
      patches := [];
    }

    method OnVariantChanged(variant: KernelVariant, sourceArray: seq<string>)
      modifies this, switch
      ensures View() == old(View()).(variant := variant, controls := Switched(old(View()).controls, variant),
                                     patches := PatchesOf(sourceArray))
    {
      this.variant := variant;
      switch.SwitchTo(variant);
      patches := PatchesOf(sourceArray);
    }

    method LoadConfig(config: Config) returns (outdated: bool)
      modifies this, switch
      ensures View() == Loaded(old(View()), config)
      ensures outdated <==> !Look(old(View()).controls, config).Complete()
    {
      var fixedOutdated := LoadFixed(config);
      var variantOutdated := switch.Load(config);
      outdated := fixedOutdated || variantOutdated;
    }

    method LoadFixed(config: Config) returns (outdated: bool)
      modifies this
      ensures View() == old(View()).(fixed := LoadedFixed(old(fixed), config))
      ensures outdated <==> FindTickless(config.tickrate).None? || FindHugepage(config.hugepage).None? || FindCpuOpt(config.cpuOpt).None?
    {
      var tickless, hugepage, cpuOpt := fixed.tickless, fixed.hugepage, fixed.cpuOpt;
      outdated := false;
      match FindTickless(config.tickrate) {
        case Some(t) => tickless := t;
        case None => outdated := true;
      }
      match FindHugepage(config.hugepage) {
        case Some(h) => hugepage := h;
        case None => outdated := true;
      }
      match FindCpuOpt(config.cpuOpt) {
        case Some(c) => cpuOpt := c;
        case None => outdated := true;
      }
      fixed := Fixed(config.hardly, config.perGov, config.tcpBbr3, config.nconfig, config.xconfig,
                     config.localmodcfg, config.useCurrent, config.builtinNvidiaOpen, config.buildDebug,
                     tickless, hugepage, cpuOpt, config.customName);
    }
  }

  const DEFAULT_WINDOW := Window(
    Cachyos, Table(Cachyos, false),
    Fixed(true, false, false, false, false, false, false, false, false, TicklessFull, HugepageAlways, CpuManual,
          DEFAULT_CUSTOM_NAME),
    [])

  // ---------- what loading a saved configuration does ----------

  lemma {:induction false} FindValueExactly<T>(items: seq<T>, value: T -> string, x: T)
    requires forall y | y in items && value(y) == value(x) :: y == x
    ensures FindValue(items, value, value(x)) == if x in items then Some(x) else None
  {
  }

  lemma TickValuesDiffer()
    ensures forall x: HzTick, y: HzTick :: x.Value() == y.Value() ==> x == y
    ensures forall x: TicklessMode, y: TicklessMode :: x.Value() == y.Value() ==> x == y
    ensures forall x: HugepageMode, y: HugepageMode :: x.Value() == y.Value() ==> x == y
  {
  }

  lemma ModeValuesDiffer()
    ensures forall x: PreemptMode, y: PreemptMode :: x.Value() == y.Value() ==> x == y
    ensures forall x: LtoMode, y: LtoMode :: x.Value() == y.Value() ==> x == y
  {
  }

  lemma CpuValuesDiffer(x: CpuOptMode, y: CpuOptMode)
    requires x.Value() == y.Value()
    ensures x == y
  {
    assert x.Value()[|x.Value()| - 1] == y.Value()[|y.Value()| - 1];
  }

  lemma {:induction false} SavedFixedLookups(f: Fixed, hz: HzTick)
    ensures FindTickless(f.tickless.Value()) == Some(f.tickless) && FindHugepage(f.hugepage.Value()) == Some(f.hugepage)
    ensures FindHz(hz.Value()) == Some(hz)
  {
    TickValuesDiffer();
    FindValueExactly(TICKLESS_ALL, (x: TicklessMode) => x.Value(), f.tickless);
    FindValueExactly(HUGEPAGE_ALL, (x: HugepageMode) => x.Value(), f.hugepage);
    FindValueExactly(HZ_ALL, (x: HzTick) => x.Value(), hz);
  }

  lemma {:induction false} SavedCpuLookup(cpu: CpuOptMode)
    ensures FindCpuOpt(cpu.Value()) == Some(cpu)
  {
    forall y | y in CPU_ALL && y.Value() == cpu.Value() ensures y == cpu {
      CpuValuesDiffer(y, cpu);
    }
    FindValueExactly(CPU_ALL, (x: CpuOptMode) => x.Value(), cpu);
  }

  /** All lookups of a saved window succeed in any window, except those of the two combos whose
      items depend on the variant. */
  lemma {:induction false} SavedVariantLookups(lto: LtoMode, ltoItems: seq<LtoMode>, preempt: PreemptMode, preemptItems: seq<PreemptMode>)
    ensures FindLto(ltoItems, lto.Value()) == if lto in ltoItems then Some(lto) else None
    ensures FindPreempt(preemptItems, preempt.Value()) == if preempt in preemptItems then Some(preempt) else None
  {
    ModeValuesDiffer();
    FindValueExactly(ltoItems, (x: LtoMode) => x.Value(), lto);
    FindValueExactly(preemptItems, (x: PreemptMode) => x.Value(), preempt);
  }

  /** Loading into one window what another saved copies every setting; LTO and preemption stay as
      they are when the receiving variant does not offer them, and exactly then the configuration
      is reported outdated. */
  lemma {:induction false} LoadSavedExactly(saved: Window, w: Window)
    ensures var s, c := saved.controls, w.controls;
            Loaded(w, ToConfig(saved))
            == w.(fixed := saved.fixed,
                  controls := c.(ltoSelected := if s.ltoSelected in c.ltoItems then s.ltoSelected else c.ltoSelected,
                                 preemptSelected := if s.preemptSelected in c.preemptItems then s.preemptSelected else c.preemptSelected,
                                 hzSelected := s.hzSelected, cachyConfigChecked := s.cachyConfigChecked,
                                 zfsChecked := s.zfsChecked))
    ensures Look(w.controls, ToConfig(saved)).Complete()
            <==> saved.controls.ltoSelected in w.controls.ltoItems && saved.controls.preemptSelected in w.controls.preemptItems
  {
    var s, c := saved.controls, w.controls;
    SavedFixedLookups(saved.fixed, s.hzSelected);
    SavedCpuLookup(saved.fixed.cpuOpt);
    SavedVariantLookups(s.ltoSelected, c.ltoItems, s.preemptSelected, c.preemptItems);
  }

  /** A combo after a load: the item of the stored value, or what it was when none has that value. */
  predicate Picks<T(==)>(items: seq<T>, value: T -> string, text: string, was: T, now: T) {
    if exists x | x in items :: value(x) == text then now in items && value(now) == text else now == was
  }

  function HzText(x: HzTick): string {
    x.Value()
  }

  function TicklessText(x: TicklessMode): string {
    x.Value()
  }

  function HugepageText(x: HugepageMode): string {
    x.Value()
  }

  function CpuText(x: CpuOptMode): string {
    x.Value()
  }

  function LtoText(x: LtoMode): string {
    x.Value()
  }

  function PreemptText(x: PreemptMode): string {
    x.Value()
  }

  /** What any configuration does to any window: every checkbox and the name are taken from their own
      field, a combo moves only where it offers the stored value, and nothing else moves. */
  lemma {:induction false} LoadExactly(w: Window, config: Config)
    ensures var v := Loaded(w, config);
            var f, c := v.fixed, v.controls;
            && v.variant == w.variant && v.patches == w.patches
            && c.ltoItems == w.controls.ltoItems && c.preemptItems == w.controls.preemptItems && c.zfsEnabled == w.controls.zfsEnabled
            && f.hardly == config.hardly && f.perGov == config.perGov && f.tcpBbr3 == config.tcpBbr3
            && c.cachyConfigChecked == config.cachyConfig && f.nconfig == config.nconfig && f.xconfig == config.xconfig
            && f.localmodcfg == config.localmodcfg && f.useCurrent == config.useCurrent && c.zfsChecked == config.builtinZfs
            && f.builtinNvidiaOpen == config.builtinNvidiaOpen && f.buildDebug == config.buildDebug && f.customName == config.customName
    ensures var v := Loaded(w, config);
            && Picks(HZ_ALL, HzText, config.hzTicks, w.controls.hzSelected, v.controls.hzSelected)
            && Picks(TICKLESS_ALL, TicklessText, config.tickrate, w.fixed.tickless, v.fixed.tickless)
            && Picks(HUGEPAGE_ALL, HugepageText, config.hugepage, w.fixed.hugepage, v.fixed.hugepage)
            && Picks(CPU_ALL, CpuText, config.cpuOpt, w.fixed.cpuOpt, v.fixed.cpuOpt)
            && Picks(w.controls.ltoItems, LtoText, config.lto, w.controls.ltoSelected, v.controls.ltoSelected)
            && Picks(w.controls.preemptItems, PreemptText, config.preempt, w.controls.preemptSelected, v.controls.preemptSelected)
  {
    hide FindValue;
  }

  // ---------- whole sessions of the window ----------

  /** What can happen to the window: another variant, a loaded file, a pick in one of the combos that
      depend on the variant, and everything else that is set freely. */
  datatype Deed =
    | Switch(variant: KernelVariant, sources: seq<string>)
    | Load(config: Config)
    | PickLto(lto: LtoMode)
    | PickPreempt(preempt: PreemptMode)
    | PickHz(hz: HzTick)
    | CheckCachyConfig(on: bool)
    | CheckZfs(on: bool)
    | SetOther(fixed: Fixed)
    | EditPatches(patches: seq<string>)

  /** A combo offers its items only. */
  predicate Offered(w: Window, d: Deed) {
    match d
    case PickLto(lto) => lto in w.controls.ltoItems
    case PickPreempt(preempt) => preempt in w.controls.preemptItems
    case _ => true
  }

  function Done(w: Window, d: Deed): Window {
    match d
    case Switch(v, sources) => w.(variant := v, controls := Switched(w.controls, v), patches := PatchesOf(sources))
    case Load(config) => Loaded(w, config)
    case PickLto(lto) => w.(controls := w.controls.(ltoSelected := lto))
    case PickPreempt(preempt) => w.(controls := w.controls.(preemptSelected := preempt))
    case PickHz(hz) => w.(controls := w.controls.(hzSelected := hz))
    case CheckCachyConfig(on) => w.(controls := w.controls.(cachyConfigChecked := on))
    case CheckZfs(on) => w.(controls := w.controls.(zfsChecked := on))
    case SetOther(fixed) => w.(fixed := fixed)
    case EditPatches(patches) => w.(patches := patches)
  }

  predicate Possible(w: Window, session: seq<Deed>)
    decreases |session|
  {
    session == [] || (Offered(w, session[0]) && Possible(Done(w, session[0]), session[1..]))
  }

  function DoneAll(w: Window, session: seq<Deed>): Window
    decreases |session|
  {
    if session == [] then w else DoneAll(Done(w, session[0]), session[1..])
  }

  /** The combos offer what the table says for the variant shown, and show an item of theirs. */
  ghost predicate Tracks(w: Window) {
    var c := w.controls;
    && c.ltoItems == LtoItems(w.variant) && c.ltoSelected in c.ltoItems
    && c.preemptItems == PreemptItems(w.variant) && c.preemptSelected in c.preemptItems
    && c.zfsEnabled == Transitions(w.variant).zfsEnabled
  }

  lemma TableTracks(v: KernelVariant, zfsChecked: bool)
    ensures var c := Table(v, zfsChecked); c.ltoSelected in c.ltoItems && c.preemptSelected in c.preemptItems
  {
    assert LTO_BASE[0] == LtoNone && LTO_BASE[2] == LtoThin;
    assert LtoItems(v)[0] == LtoNone && LtoItems(v)[2] == LtoThin;
    assert PreemptItems(v)[0] == PreemptFull && PreemptItems(v)[1] == PreemptLazy;
  }

  lemma {:induction false} DeedTracks(w: Window, d: Deed)
    requires Tracks(w) && Offered(w, d)
    ensures Tracks(Done(w, d))
  {
    hide LtoItems, PreemptItems, FindValue, LoadedFixed;
    if d.Switch? {
      assert ItemsKept(w.controls);
      SwitchMeetsTable(w.controls, d.variant);
      TableTracks(d.variant, w.controls.zfsChecked && !d.variant.Rt?);
    }
    hide Switched;
  }

  /** After any session the combos track the variant, and saving and loading again reports nothing and
      changes nothing. */
  lemma {:induction false} SessionsReload(w: Window, session: seq<Deed>)
    requires Tracks(w) && Possible(w, session)
    ensures var v := DoneAll(w, session);
            Tracks(v) && Loaded(v, ToConfig(v)) == v && Look(v.controls, ToConfig(v)).Complete()
    decreases |session|
  {
    if session == [] {
      LoadSavedExactly(w, w);
    } else {
      DeedTracks(w, session[0]);
      SessionsReload(Done(w, session[0]), session[1..]);
    }
  }

  /** The same after any variant switches of a window whose item lists are those of some variants. */
  lemma {:induction false} SwitchedWindowsReload(w: Window, variants: seq<KernelVariant>)
    requires if variants == [] then Tracks(w) else ItemsKept(w.controls)
    ensures var v := if variants == [] then w
                     else w.(variant := variants[|variants| - 1], controls := SwitchAll(w.controls, variants));
            Tracks(v) && Loaded(v, ToConfig(v)) == v && Look(v.controls, ToConfig(v)).Complete()
  {
    if variants == [] {
      SessionsReload(w, []);
    } else {
      var last := variants[|variants| - 1];
      var v := w.(variant := last, controls := SwitchAll(w.controls, variants));
      SwitchesMeetTable(w.controls, variants);
      TableTracks(last, w.controls.zfsChecked && Rt !in variants);
      SessionsReload(v, []);
    }
  }

  lemma DefaultTracks()
    ensures Tracks(DEFAULT_WINDOW)
  {
    TableTracks(Cachyos, false);
  }

  /** So it is for the window as it opens. */
  lemma {:induction false} OpenedWindowReloads(session: seq<Deed>)
    requires Possible(DEFAULT_WINDOW, session)
    ensures var v := DoneAll(DEFAULT_WINDOW, session);
            Tracks(v) && Loaded(v, ToConfig(v)) == v && Look(v.controls, ToConfig(v)).Complete()
  {
    DefaultTracks();
    SessionsReload(DEFAULT_WINDOW, session);
  }
}
