/** Build options and the environment text they are handed over as
    (crates/cachyos-kernel-manager-core/src/options.rs,
    crates/cachyos-kernel-manager-build/src/lib.rs). */
module Options {
  import opened Text

  datatype KernelVariant = Cachyos | Bore | Rc | Rt | Lts | Eevdf | Bmq | Hardened | Deckify | Server
  {
    function DirName(): string {
      match this
      case Cachyos => "linux-cachyos"
      case Bmq => "linux-cachyos-bmq"
      case Bore => "linux-cachyos-bore"
      case Hardened => "linux-cachyos-hardened"
      case Lts => "linux-cachyos-lts"
      case Rc => "linux-cachyos-rc"
      case Rt => "linux-cachyos-rt-bore"
      case Eevdf => "linux-cachyos-eevdf"
      case Deckify => "linux-cachyos-deckify"
      case Server => "linux-cachyos-server"
    }
  }

  datatype HzTick = Hz1000 | Hz750 | Hz600 | Hz500 | Hz300 | Hz250 | Hz100
  {
    function Value(): string {
      match this
      case Hz1000 => "1000"
      case Hz750 => "750"
      case Hz600 => "600"
      case Hz500 => "500"
      case Hz300 => "300"
      case Hz250 => "250"
      case Hz100 => "100"
    }
  }

  datatype TicklessMode = TicklessFull | TicklessIdle | TicklessPeriodic
  {
    function Value(): string {
      match this
      case TicklessFull => "full"
      case TicklessIdle => "idle"
      case TicklessPeriodic => "periodic"
    }
  }

  datatype PreemptMode = PreemptFull | PreemptLazy | PreemptVoluntary | PreemptNone
  {
    function Value(): string {
      match this
      case PreemptFull => "full"
      case PreemptLazy => "lazy"
      case PreemptVoluntary => "voluntary"
      case PreemptNone => "none"
    }
  }

  datatype LtoMode = LtoNone | LtoFull | LtoThin | LtoThinDist
  {
    function Value(): string {
      match this
      case LtoNone => "none"
      case LtoFull => "full"
      case LtoThin => "thin"
      case LtoThinDist => "thin-dist"
    }
  }

  datatype HugepageMode = HugepageAlways | HugepageMadvise
  {
    function Value(): string {
      match this
      case HugepageAlways => "always"
      case HugepageMadvise => "madvise"
    }
  }

  datatype CpuOptMode = CpuManual | CpuNative | CpuGenericV1 | CpuGenericV2 | CpuGenericV3 | CpuGenericV4 | CpuZen4
  {
    function Value(): string {
      match this
      case CpuManual => "manual"
      case CpuNative => "native"
      case CpuGenericV1 => "generic_v1"
      case CpuGenericV2 => "generic_v2"
      case CpuGenericV3 => "generic_v3"
      case CpuGenericV4 => "generic_v4"
      case CpuZen4 => "zen4"
    }
  }

  const DEFAULT_CUSTOM_NAME := "$pkgbase-custom"
  const PKGBASE_SENTINEL := "$pkgbase"

  const CHECKBOX_VARS := [
    "_cc_harder", "_per_gov", "_tcp_bbr3", "_cachy_config", "_makenconfig", "_makexconfig",
    "_localmodcfg", "_use_current", "_build_zfs", "_build_nvidia_open", "_build_debug"]

  datatype BuildOptions = BuildOptions(
    variant: KernelVariant, hardly: bool, perGov: bool, tcpBbr3: bool, cachyConfig: bool, nconfig: bool,
    xconfig: bool, localmodcfg: bool, useCurrent: bool, builtinZfs: bool, builtinNvidiaOpen: bool,
    buildDebug: bool, hzTicks: HzTick, tickless: TicklessMode, preempt: PreemptMode,
    hugepage: HugepageMode, lto: LtoMode, cpuOpt: CpuOptMode, customName: string)
  {
    function Checked(): seq<bool> {
      [hardly, perGov, tcpBbr3, cachyConfig, nconfig, xconfig, localmodcfg, useCurrent, builtinZfs,
       builtinNvidiaOpen, buildDebug]
    }
  }

  const DEFAULT_OPTIONS := BuildOptions(
    Cachyos, true, false, false, true, false, false, false, false, false, false, false,
    Hz1000, TicklessFull, PreemptFull, HugepageAlways, LtoThin, CpuManual, DEFAULT_CUSTOM_NAME)

  type Pair = (string, string)

  // ---------- printing ----------

  function YesNo(b: bool): string {
    if b then "yes" else "no"
  }

  function CheckboxPairs(o: BuildOptions): seq<Pair> {
    seq(|CHECKBOX_VARS|, i requires 0 <= i < |CHECKBOX_VARS| => (CHECKBOX_VARS[i], YesNo(o.Checked()[i])))
  }

  /** The variables of a build, in the order they are handed over. */
  function EnvPairs(o: BuildOptions): seq<Pair> {
    CheckboxPairs(o)
    + [("_HZ_ticks", o.hzTicks.Value()), ("_tickrate", o.tickless.Value()), ("_preempt", o.preempt.Value()),
       ("_hugepage", o.hugepage.Value()), ("_use_llvm_lto", o.lto.Value())]
    + (if o.cpuOpt != CpuManual then [("_processor_opt", o.cpuOpt.Value())] else [])
    + (if o.lto != LtoNone && o.customName != PKGBASE_SENTINEL then [("_use_lto_suffix", "n")] else [])
  }

  function Lines(pairs: seq<Pair>): string {
    if pairs == [] then ""
    else pairs[0].0 + "=" + pairs[0].1 + "\n" + Lines(pairs[1..])
  }

  lemma {:induction false} LinesAppend(a: seq<Pair>, p: Pair)
    ensures Lines(a + [p]) == Lines(a) + (p.0 + "=" + p.1 + "\n")
  {
    if a == [] {
      assert (a + [p])[1..] == [];
    } else {
      assert (a + [p])[1..] == a[1..] + [p];
      LinesAppend(a[1..], p);
    }
  }

  method EnvString(o: BuildOptions) returns (s: string)
    ensures s == Lines(EnvPairs(o))
  {
    s := "";
    var pairs := EnvPairs(o);
    for i := 0 to |pairs|
      invariant s == Lines(pairs[..i])
    {
      LinesAppend(pairs[..i], pairs[i]);
      assert pairs[..i + 1] == pairs[..i] + [pairs[i]];
      s := s + (pairs[i].0 + "=" + pairs[i].1 + "\n");
    }
    assert pairs[..|pairs|] == pairs;
  }

  // ---------- parsing ----------

  /** The assignment on a line: its first two non-empty `=` segments, if there are two. */
  function ParseLine(line: string): seq<Pair> {
    var parts := NonEmpty(Split(line, '='));
    if |parts| >= 2 then [(parts[0], parts[1])] else []
  }

  function ParseLines(lines: seq<string>): seq<Pair> {
    if lines == [] then [] else ParseLine(lines[0]) + ParseLines(lines[1..])
  }

  function Parse(text: string): seq<Pair> {
    ParseLines(Split(text, '\n'))
  }

  lemma {:induction false} ParseLinesAppend(a: seq<string>, line: string)
    ensures ParseLines(a + [line]) == ParseLines(a) + ParseLine(line)
  {
    if a == [] {
      assert (a + [line])[1..] == [];
    } else {
      assert (a + [line])[1..] == a[1..] + [line];
      ParseLinesAppend(a[1..], line);
    }
  }

  lemma EmptyLine()
    ensures NonEmpty(Split("", '=')) == []
  {
    assert Split("", '=') == [""] && [""][1..] == [];
  }

  method EnvAssignments(allSetValues: string) returns (out: seq<Pair>)
    ensures out == Parse(allSetValues)
  {
    hide Split, NonEmpty;
    EmptyLine();
    out := [];
    var lines := Split(allSetValues, '\n');
    for i := 0 to |lines|
      invariant out == ParseLines(lines[..i])
    {
      var line := lines[i];
      ParseLinesAppend(lines[..i], line);
      assert lines[..i + 1] == lines[..i] + [line];
      if line == "" {
        continue;
      }
      var parts := NonEmpty(Split(line, '='));
      if |parts| >= 2 {
        out := out + [(parts[0], parts[1])];
      }
    }
    assert lines[..|lines|] == lines;
  }

  // ---------- parsing undoes printing ----------

  predicate CleanText(s: string) {
    s != "" && '=' !in s && '\n' !in s
  }

  predicate CleanPair(p: Pair) {
    CleanText(p.0) && CleanText(p.1)
  }

  lemma {:induction false} ParsePrintedLine(p: Pair)
    requires CleanPair(p)
    ensures ParseLine(p.0 + "=" + p.1) == [p]
  {
    SplitHead(p.0, '=', p.1);
    SplitHead(p.1, '=', "");
    var parts := [p.0] + [p.1];
    assert parts[1..] == [p.1] && parts[1..][1..] == [];
    assert NonEmpty(parts[1..][1..]) == [];
    assert NonEmpty(parts[1..]) == [p.1];
  }

  lemma NothingParsed()
    ensures Parse("") == []
  {
    EmptyLine();
    assert Split("", '\n') == [""] && [""][1..] == [];
    assert ParseLine("") == [];
  }

  lemma {:induction false} ParsePrinted(pairs: seq<Pair>)
    requires forall p | p in pairs :: CleanPair(p)
    ensures Parse(Lines(pairs)) == pairs
  {
    hide Split, NonEmpty, ParseLine;
    if pairs == [] {
      NothingParsed();
    } else {
      var p, rest := pairs[0], Lines(pairs[1..]);
      var line := p.0 + "=" + p.1;
      assert CleanPair(p);
      SplitHead(line, '\n', rest);
      assert Lines(pairs) == line + ['\n'] + rest;
      ParsePrinted(pairs[1..]);
      ParsePrintedLine(p);
      var lines := [line] + Split(rest, '\n');
      assert lines[1..] == Split(rest, '\n');
      assert pairs == [p] + pairs[1..];
    }
  }

  lemma {:induction false} ParsedIsClean(lines: seq<string>)
    requires forall line | line in lines :: '\n' !in line
    ensures forall p | p in ParseLines(lines) :: CleanPair(p)
  {
    if lines != [] {
      ParsedIsClean(lines[1..]);
      JoinSplit(lines[0], '=');
      SplitChars(lines[0], '=');
      var parts := NonEmpty(Split(lines[0], '='));
      if |parts| >= 2 {
        assert parts[0] in parts && parts[1] in parts;
      }
    }
  }

  /** Parsing what was printed returns the pairs exactly when all names and values are non-empty
      and free of `=` and newline. */
  lemma {:induction false} RoundTripExactly(pairs: seq<Pair>)
    ensures Parse(Lines(pairs)) == pairs <==> forall p | p in pairs :: CleanPair(p)
  {
    if forall p | p in pairs :: CleanPair(p) {
      ParsePrinted(pairs);
    }
    JoinSplit(Lines(pairs), '\n');
    ParsedIsClean(Split(Lines(pairs), '\n'));
  }

  lemma CheckboxPairsClean(o: BuildOptions)
    ensures forall p | p in CheckboxPairs(o) :: CleanPair(p)
  {
    forall i | 0 <= i < |CHECKBOX_VARS| ensures CleanText(CHECKBOX_VARS[i]) {
    }
  }

  lemma ComboNamesClean()
    ensures CleanText("_HZ_ticks") && CleanText("_tickrate") && CleanText("_preempt") && CleanText("_hugepage")
  {
  }

  lemma OtherNamesClean()
    ensures CleanText("_use_llvm_lto") && CleanText("_processor_opt") && CleanPair(("_use_lto_suffix", "n"))
  {
  }

  lemma TickValuesClean(hz: HzTick, tickless: TicklessMode)
    ensures CleanText(hz.Value()) && CleanText(tickless.Value())
  {
  }

  lemma ModeValuesClean(preempt: PreemptMode, hugepage: HugepageMode, lto: LtoMode)
    ensures CleanText(preempt.Value()) && CleanText(hugepage.Value()) && CleanText(lto.Value())
  {
  }

  lemma CpuValuesClean(cpu: CpuOptMode)
    ensures CleanText(cpu.Value())
  {
  }

  /** For every option setting the environment text parses back to the option variables. */
  lemma {:induction false} OptionsRoundTrip(o: BuildOptions)
    ensures Parse(Lines(EnvPairs(o))) == EnvPairs(o)
  {
    assert forall p | p in EnvPairs(o) :: CleanPair(p) by {
      CheckboxPairsClean(o);
      ComboNamesClean();
      OtherNamesClean();
      TickValuesClean(o.hzTicks, o.tickless);
      ModeValuesClean(o.preempt, o.hugepage, o.lto);
      CpuValuesClean(o.cpuOpt);
    }
    RoundTripExactly(EnvPairs(o));
  }

  /** The `i`-th checkbox variable says what the option says. */
  predicate Says(o: BuildOptions, i: nat, name: string, on: bool) {
    i < |CheckboxPairs(o)| && CheckboxPairs(o)[i] == (name, if on then "yes" else "no")
  }

  lemma SaysAt(o: BuildOptions, i: nat, name: string, on: bool)
    requires i < 11 && CHECKBOX_VARS[i] == name && o.Checked()[i] == on
    ensures Says(o, i, name, on)
  {
    hide BuildOptions.Checked;
  }

  lemma VariableNames()
    ensures CHECKBOX_VARS[0] == "_cc_harder" && CHECKBOX_VARS[1] == "_per_gov"
    ensures CHECKBOX_VARS[2] == "_tcp_bbr3" && CHECKBOX_VARS[3] == "_cachy_config"
    ensures CHECKBOX_VARS[4] == "_makenconfig" && CHECKBOX_VARS[5] == "_makexconfig"
    ensures CHECKBOX_VARS[6] == "_localmodcfg" && CHECKBOX_VARS[7] == "_use_current"
    ensures CHECKBOX_VARS[8] == "_build_zfs" && CHECKBOX_VARS[9] == "_build_nvidia_open"
    ensures CHECKBOX_VARS[10] == "_build_debug"
  {
  }

  lemma FirstOptions(o: BuildOptions)
    ensures |o.Checked()| == 11
    ensures var c := o.Checked(); c[0] == o.hardly && c[1] == o.perGov && c[2] == o.tcpBbr3 && c[3] == o.cachyConfig
  {
  }

  lemma FirstSays(o: BuildOptions)
    ensures Says(o, 0, "_cc_harder", o.hardly) && Says(o, 1, "_per_gov", o.perGov)
    ensures Says(o, 2, "_tcp_bbr3", o.tcpBbr3) && Says(o, 3, "_cachy_config", o.cachyConfig)
  {
    hide Says, BuildOptions.Checked;
    VariableNames();
    FirstOptions(o);
    SaysAt(o, 0, "_cc_harder", o.hardly);
    SaysAt(o, 1, "_per_gov", o.perGov);
    SaysAt(o, 2, "_tcp_bbr3", o.tcpBbr3);
    SaysAt(o, 3, "_cachy_config", o.cachyConfig);
  }

  lemma MiddleOptions(o: BuildOptions)
    ensures |o.Checked()| == 11
    ensures var c := o.Checked(); c[4] == o.nconfig && c[5] == o.xconfig && c[6] == o.localmodcfg && c[7] == o.useCurrent
  {
  }

  lemma MiddleSays(o: BuildOptions)
    ensures Says(o, 4, "_makenconfig", o.nconfig) && Says(o, 5, "_makexconfig", o.xconfig)
    ensures Says(o, 6, "_localmodcfg", o.localmodcfg) && Says(o, 7, "_use_current", o.useCurrent)
  {
    hide Says, BuildOptions.Checked;
    VariableNames();
    MiddleOptions(o);
    SaysAt(o, 4, "_makenconfig", o.nconfig);
    SaysAt(o, 5, "_makexconfig", o.xconfig);
    SaysAt(o, 6, "_localmodcfg", o.localmodcfg);
    SaysAt(o, 7, "_use_current", o.useCurrent);
  }

  lemma LastOptions(o: BuildOptions)
    ensures |o.Checked()| == 11
    ensures var c := o.Checked(); c[8] == o.builtinZfs && c[9] == o.builtinNvidiaOpen && c[10] == o.buildDebug
  {
  }

  lemma LastSays(o: BuildOptions)
    ensures Says(o, 8, "_build_zfs", o.builtinZfs) && Says(o, 9, "_build_nvidia_open", o.builtinNvidiaOpen)
    ensures Says(o, 10, "_build_debug", o.buildDebug)
  {
    hide Says, BuildOptions.Checked;
    VariableNames();
    LastOptions(o);
    SaysAt(o, 8, "_build_zfs", o.builtinZfs);
    SaysAt(o, 9, "_build_nvidia_open", o.builtinNvidiaOpen);
    SaysAt(o, 10, "_build_debug", o.buildDebug);
  }

  /** What the build finds in its environment, once the text has been read back: every checkbox under its
      own name as "yes" or "no", every combo's value, the processor only when one is chosen, and the
      suffix switched off only with link-time optimisation under a name of one's own. */
  lemma {:induction false} EnvironmentSays(o: BuildOptions)
    ensures var env, n := Parse(Lines(EnvPairs(o))), if o.cpuOpt == CpuManual then 16 else 17;
            && |env| == n + (if o.lto != LtoNone && o.customName != "$pkgbase" then 1 else 0)
            && env[..11] == CheckboxPairs(o)
            && env[11] == ("_HZ_ticks", o.hzTicks.Value()) && env[12] == ("_tickrate", o.tickless.Value())
            && env[13] == ("_preempt", o.preempt.Value()) && env[14] == ("_hugepage", o.hugepage.Value())
            && env[15] == ("_use_llvm_lto", o.lto.Value())
            && (n == 17 ==> env[16] == ("_processor_opt", o.cpuOpt.Value()))
            && (|env| > n ==> env[n] == ("_use_lto_suffix", "n"))
    ensures Says(o, 0, "_cc_harder", o.hardly) && Says(o, 1, "_per_gov", o.perGov) && Says(o, 2, "_tcp_bbr3", o.tcpBbr3)
    ensures Says(o, 3, "_cachy_config", o.cachyConfig) && Says(o, 4, "_makenconfig", o.nconfig)
    ensures Says(o, 5, "_makexconfig", o.xconfig)
    ensures Says(o, 6, "_localmodcfg", o.localmodcfg) && Says(o, 7, "_use_current", o.useCurrent)
    ensures Says(o, 8, "_build_zfs", o.builtinZfs) && Says(o, 9, "_build_nvidia_open", o.builtinNvidiaOpen)
    ensures Says(o, 10, "_build_debug", o.buildDebug)
  {
    assert |CheckboxPairs(o)| == 11;
    hide Says, CheckboxPairs, Parse, Lines, BuildOptions.Checked;
    hide HzTick.Value, TicklessMode.Value, PreemptMode.Value, HugepageMode.Value, LtoMode.Value, CpuOptMode.Value;
    OptionsRoundTrip(o);
    FirstSays(o);
    MiddleSays(o);
    LastSays(o);
  }

  lemma SaysOnce(o: BuildOptions, other: BuildOptions, i: nat, name: string, on: bool, on': bool)
    requires Says(o, i, name, on) && Says(other, i, name, on') && CheckboxPairs(o) == CheckboxPairs(other)
    ensures on == on'
  {
    hide CheckboxPairs;
    assert "yes"[0] != "no"[0];
  }

  lemma CheckboxesDetermine(o: BuildOptions, other: BuildOptions)
    requires CheckboxPairs(o) == CheckboxPairs(other)
    ensures o.Checked() == other.Checked()
  {
    ElevenCheckboxes(o);
    ElevenCheckboxes(other);
    hide CheckboxPairs, Says, BuildOptions.Checked;
    forall i | 0 <= i < 11 ensures o.Checked()[i] == other.Checked()[i] {
      SaysAt(o, i, CHECKBOX_VARS[i], o.Checked()[i]);
      SaysAt(other, i, CHECKBOX_VARS[i], other.Checked()[i]);
      SaysOnce(o, other, i, CHECKBOX_VARS[i], o.Checked()[i], other.Checked()[i]);
    }
  }

  lemma ElevenCheckboxes(o: BuildOptions)
    ensures |o.Checked()| == 11
  {
  }

  /** Every option but variant, processor and custom name can be read off it again. */
  lemma {:induction false} EnvironmentDetermines(o: BuildOptions, other: BuildOptions)
    requires Parse(Lines(EnvPairs(o))) == Parse(Lines(EnvPairs(other)))
    ensures o.Checked() == other.Checked()
    ensures o.hzTicks == other.hzTicks && o.tickless == other.tickless && o.preempt == other.preempt
    ensures o.hugepage == other.hugepage && o.lto == other.lto
  {
    hide Says, CheckboxPairs, Parse, Lines, EnvPairs, BuildOptions.Checked;
    hide HzTick.Value, TicklessMode.Value, PreemptMode.Value, HugepageMode.Value, LtoMode.Value, CpuOptMode.Value;
    EnvironmentSays(o);
    EnvironmentSays(other);
    CheckboxesDetermine(o, other);
    ValuesDiffer();
  }

  lemma ValuesDiffer()
    ensures forall x: HzTick, y: HzTick :: x.Value() == y.Value() ==> x == y
    ensures forall x: TicklessMode, y: TicklessMode :: x.Value() == y.Value() ==> x == y
    ensures forall x: HugepageMode, y: HugepageMode :: x.Value() == y.Value() ==> x == y
    ensures forall x: PreemptMode, y: PreemptMode :: x.Value() == y.Value() ==> x == y
    ensures forall x: LtoMode, y: LtoMode :: x.Value() == y.Value() ==> x == y
  {
  }
}
