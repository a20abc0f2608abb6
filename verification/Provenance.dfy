/** The whole kernel pipeline, from databases to commands
    (crates/cachyos-kernel-manager-alpm/src/bin/plan.rs, crates/cachyos-kernel-manager-ui/src/app.rs). */
module Provenance {
  import opened Text
  import opened KernelNames
  import opened Discovery
  import opened Selection
  import opened Planning
  import opened Sequences

  /** What the local database knows of an installed package; `db` is its provenance when known. */
  datatype LocalPackage = LocalPackage(db: Option<string>, version: string)

  type LocalDb = map<string, LocalPackage>

  /** The row of a kernel as the tree first shows it. `older` is the package manager's version
      comparison: the installed version precedes the sync version. */
  function RowOf(k: DiscoveredKernel, local: LocalDb, older: (string, string) -> bool): KernelRow {
    var installed := k.name in local;
    var immutable := installed && (local[k.name].db.None? || local[k.name].db.value == k.repo);
    KernelRow(k.raw, k.name, installed, immutable,
              k.repo != AUR && installed && older(local[k.name].version, k.version),
              installed && immutable)
  }

  function RowsOf(kernels: seq<DiscoveredKernel>, local: LocalDb, older: (string, string) -> bool): seq<KernelRow> {
    seq(|kernels|, i requires 0 <= i < |kernels| => RowOf(kernels[i], local, older))
  }

  /** The two module-family probes, asked again for each kernel that is installed. */
  type Families = nat -> (bool, bool)

  function Probed(hw: HardwareProfile, found: (bool, bool)): HardwareProfile {
    hw.(nvidiaModulesInstalled := found.0, nvidiaOpenModulesInstalled := found.1)
  }

  /** The install actions, the `n`-th kernel with the `n`-th answers. */
  function ProbedInstalls(kernels: seq<DiscoveredKernel>, hw: HardwareProfile, families: Families): seq<PackageAction> {
    if kernels == [] then []
    else
      var n := |kernels| - 1;
      ProbedInstalls(kernels[..n], hw, families)
      + (if kernels[n].repo == AUR then [] else InstallBlock(kernels[n], Probed(hw, families(n))))
  }

  lemma ProbedStep(kernels: seq<DiscoveredKernel>, k: DiscoveredKernel, hw: HardwareProfile, families: Families)
    ensures ProbedInstalls(kernels + [k], hw, families)
            == ProbedInstalls(kernels, hw, families)
               + (if k.repo == AUR then [] else InstallBlock(k, Probed(hw, families(|kernels|))))
  {
    assert (kernels + [k])[..|kernels|] == kernels;
  }

  /** With the same answers throughout it is the plan made from one set of facts. */
  lemma {:induction false} SameAnswersSamePlan(kernels: seq<DiscoveredKernel>, hw: HardwareProfile, families: Families)
    requires forall n | 0 <= n < |kernels| && kernels[n].repo != AUR :: Probed(hw, families(n)) == hw
    ensures ProbedInstalls(kernels, hw, families) == InstallActions(kernels, hw)
  {
    hide InstallBlock;
    if kernels != [] {
      SameAnswersSamePlan(kernels[..|kernels| - 1], hw, families);
    }
  }

  /** A session: databases, the AUR rows appended to discovery, the local database as the rows were
      built, the raw names of the checkboxes pressed, and the hardware facts as the plan finds them. */
  datatype Session = Session(
    dbs: seq<SyncDb>, aur: seq<DiscoveredKernel>, local: LocalDb, older: (string, string) -> bool,
    presses: seq<string>, hw: HardwareProfile, families: Families, aurEnabled: bool)
  {
    ghost predicate Valid() {
      forall k | k in aur :: k.repo == AUR && k.raw == RawName(k.repo, k.name)
    }

    ghost function Kernels(): seq<DiscoveredKernel> {
      Discovered(dbs) + aur
    }

    ghost function Rows(): seq<KernelRow> {
      PressAll(RowsOf(Kernels(), local, older), presses)
    }

    /** Every pressed name is a kernel's. */
    ghost predicate Resolves() {
      forall raw | raw in presses :: exists k | k in Kernels() :: k.raw == raw
    }

    ghost function Installs(): seq<PackageAction> {
      ProbedInstalls(Chosen(InstallSet(Rows()), KernelsByRaw(Kernels())), hw, families)
    }

    ghost function Removals(): seq<PackageAction> {
      RemoveActions(Chosen(RemovalSet(Rows()), KernelsByRaw(Kernels())), hw)
    }

    ghost function Emitted(): seq<CommandPlan> {
      Commands(aurEnabled, AurNames(Chosen(InstallSet(Rows()), KernelsByRaw(Kernels()))), Installs(), Removals())
    }
  }

  lemma RowsHave(kernels: seq<DiscoveredKernel>, local: LocalDb, older: (string, string) -> bool, raw: string)
    ensures RowFrom(RowsOf(kernels, local, older), raw, 0).Some? <==> exists k | k in kernels :: k.raw == raw
  {
    var rows := RowsOf(kernels, local, older);
    assert forall i | 0 <= i < |kernels| :: rows[i].raw == kernels[i].raw;
    if k :| k in kernels && k.raw == raw {
      var i :| 0 <= i < |kernels| && kernels[i] == k;
      assert rows[i].raw == raw;
    }
  }

  /** The plan tool gives up on a name that no row has. */
  method PlanSession(s: Session) returns (r: Option<seq<CommandPlan>>)
    ensures r == if s.Resolves() then Some(s.Emitted()) else None
  {
    var kernels := DiscoverKernels(s.dbs);
    kernels := kernels + s.aur;
    var initial := RowsOf(kernels, s.local, s.older);
    forall raw: string ensures RowFrom(initial, raw, 0).Some? <==> exists k | k in kernels :: k.raw == raw {
      RowsHave(kernels, s.local, s.older, raw);
    }
    hide RowsOf, RowFrom, PressAll, KernelsByRaw, InstallSet, RemovalSet;
    var rows := PressEach(initial, s.presses);
    if rows.None? {
      return None;
    }
    var catalog := KernelsByRaw(kernels);
    var plan := new TransactionPlan.Empty();
    plan.install, plan.aurInstall := InstallEach(InstallSet(rows.value), catalog, s.hw, s.families);
    plan.RemovalPhase(RemovalSet(rows.value), s.hw, catalog);
    plan.aurEnabled := s.aurEnabled;
    var commands := CommitCommands(plan);
    r := Some(commands);
  }

  method ExpandAlone(kernel: DiscoveredKernel, hw: HardwareProfile) returns (install: seq<PackageAction>)
    ensures install == InstallBlock(kernel, hw)
  {
    var one := new TransactionPlan.Empty();
    one.ExpandInstall(kernel, hw);
    install := one.install;
  }

  /** The install loop: each kernel is expanded into a plan of its own, after asking the probes. */
  method InstallEach(raws: seq<string>, catalog: Catalog, hw: HardwareProfile, families: Families)
      returns (install: seq<PackageAction>, aurInstall: seq<string>)
    ensures install == ProbedInstalls(Chosen(raws, catalog), hw, families)
    ensures aurInstall == AurNames(Chosen(raws, catalog))
  {
    install, aurInstall := [], [];
    assert Chosen([], catalog) == [] && ProbedInstalls([], hw, families) == [] && AurNames([]) == [];
    assert raws[..0] == [] && raws[..|raws|] == raws;
    hide InstallBlock, RemoveBlock, InstallActions, RemoveActions, ProbedInstalls, AurNames, Chosen, Probed;
    ghost var seen: seq<DiscoveredKernel> := [];
    var asked := 0;
    for i := 0 to |raws|
      invariant seen == Chosen(raws[..i], catalog) && asked == |seen|
      invariant install == ProbedInstalls(seen, hw, families) && aurInstall == AurNames(seen)
    {
      ChosenStep(raws, i, catalog);
      if raws[i] !in catalog {
        continue;
      }
      var kernel := catalog[raws[i]];
      ProbedStep(seen, kernel, hw, families);
      ActionsStep(seen, kernel, hw);
      seen := seen + [kernel];
      if kernel.repo == AUR {
        aurInstall := aurInstall + [kernel.name];
      } else {
        var one := ExpandAlone(kernel, Probed(hw, families(asked)));
        install := install + one;
      }
      asked := asked + 1;
    }
  }

  // ---------- provenance of each package ----------

  lemma InstallBlockPackages(k: DiscoveredKernel, hw: HardwareProfile, p: string)
    requires p in Packages(InstallBlock(k, hw))
    ensures p in k.Packages()
  {
    var b := InstallBlock(k, hw);
    var i :| 0 <= i < |b| && b[i].package == p;
  }

  lemma {:induction false} InstalledFrom(kernels: seq<DiscoveredKernel>, hw: HardwareProfile, families: Families, p: string)
      returns (k: DiscoveredKernel)
    requires p in Packages(ProbedInstalls(kernels, hw, families))
    ensures k in kernels && k.repo != AUR && p in k.Packages()
  {
    var n := |kernels| - 1;
    hide InstallBlock;
    var all := ProbedInstalls(kernels, hw, families);
    var i :| 0 <= i < |all| && all[i].package == p;
    var before := ProbedInstalls(kernels[..n], hw, families);
    if i < |before| {
      assert Packages(before)[i] == p;
      k := InstalledFrom(kernels[..n], hw, families, p);
    } else {
      k := kernels[n];
      assert Packages(InstallBlock(k, Probed(hw, families(n))))[i - |before|] == p;
      InstallBlockPackages(k, Probed(hw, families(n)), p);
    }
  }

  lemma {:induction false} RemovedFrom(kernels: seq<DiscoveredKernel>, hw: HardwareProfile, p: string)
      returns (k: DiscoveredKernel)
    requires p in Packages(RemoveActions(kernels, hw))
    ensures k in kernels && p in k.Packages() && (p == k.name || p in hw.installed)
  {
    hide RemoveBlock, InstallBlock;
    var n := |kernels| - 1;
    var all := RemoveActions(kernels, hw);
    var i :| 0 <= i < |all| && all[i].package == p;
    var before := RemoveActions(kernels[..n], hw);
    if i < |before| {
      assert Packages(before)[i] == p;
      k := RemovedFrom(kernels[..n], hw, p);
    } else {
      k := kernels[n];
      assert Packages(RemoveBlock(k, hw))[i - |before|] == p;
      RemoveBlockExactly(k, hw, p);
    }
  }

  /** The longer repository name swallows the start of the other package name. */
  predicate Shifted(repo: string, name: string, repo': string, name': string) {
    repo + "/" <= repo' && name == repo'[|repo| + 1..] + "/" + name'
  }

  lemma {:induction false} ShiftedExactly(repo: string, name: string, repo': string, name': string)
    requires |repo| < |repo'|
    ensures RawName(repo, name) == RawName(repo', name') <==> Shifted(repo, name, repo', name')
  {
    var raw, raw' := RawName(repo, name), RawName(repo', name');
    var n, m := |repo|, |repo'|;
    if Shifted(repo, name, repo', name') {
      assert repo' == repo + "/" + repo'[n + 1..];
    }
    if raw == raw' {
      assert repo' == raw'[..m] && repo + "/" == raw[..n + 1];
      assert name == raw[n + 1..] == raw[n + 1..m] + raw[m..];
      assert raw'[m..] == "/" + name';
    }
  }

  /** Two raw names are equal exactly when their parts are, or one repository name swallows the start
      of the other package name. */
  lemma {:induction false} RawsEqualExactly(repo: string, name: string, repo': string, name': string)
    ensures RawName(repo, name) == RawName(repo', name')
            <==> (repo == repo' && name == name') || Shifted(repo, name, repo', name') || Shifted(repo', name', repo, name)
  {
    var raw, raw' := RawName(repo, name), RawName(repo', name');
    if |repo| < |repo'| {
      ShiftedExactly(repo, name, repo', name');
    } else if |repo'| < |repo| {
      ShiftedExactly(repo', name', repo, name);
    } else {
      assert repo == raw[..|repo|] && repo' == raw'[..|repo|];
      assert name == raw[|repo| + 1..] && name' == raw'[|repo| + 1..];
    }
  }

  /** Two discovered kernels share a raw name exactly when they stand in databases of one name and
      their headers packages strip to one name, or a '/' in a kernel's name makes the parts shift. */
  lemma {:induction false} RawsClashExactly(dbs: seq<SyncDb>, a: (nat, nat), b: (nat, nat))
    requires Selects(dbs, a.0, a.1) && Selects(dbs, b.0, b.1)
    ensures var da, db := dbs[a.0].name, dbs[b.0].name;
            var ka, kb := KernelHeadersName(dbs[a.0].packages[a.1].name), KernelHeadersName(dbs[b.0].packages[b.1].name);
            KernelAt(dbs, a).raw == KernelAt(dbs, b).raw
            <==> (da == db && ka == kb) || Shifted(da, ka, db, kb) || Shifted(db, kb, da, ka)
  {
    var k, l := KernelAt(dbs, a), KernelAt(dbs, b);
    RawsEqualExactly(k.repo, k.name, l.repo, l.name);
  }

  /** Every package of the emitted install command belongs to the database in which the kernel it
      accompanies was discovered; that kernel was selected, and no "aur" kernel contributes. */
  lemma {:induction false} InstallProvenance(s: Session, p: string) returns (k: DiscoveredKernel, db: SyncDb)
    requires s.Valid() && p in AskedToInstall(s.Emitted())
    ensures k in Discovered(s.dbs) && k.repo != AUR && k.raw in InstallSet(s.Rows())
    ensures db in s.dbs && db.name == k.repo && p in k.Packages() && db.Has(p)
  {
    var catalog := KernelsByRaw(s.Kernels());
    var chosen := Chosen(InstallSet(s.Rows()), catalog);
    CommandsConserve(s.aurEnabled, AurNames(chosen), s.Installs(), s.Removals());
    k := InstalledFrom(chosen, s.hw, s.families, p);
    db := DiscoveredPackagesExist(s.dbs, k);
  }

  lemma {:induction false} KernelNamesRemoved(kernels: seq<DiscoveredKernel>, hw: HardwareProfile, k: DiscoveredKernel)
    requires k in kernels
    ensures k.name in Packages(RemoveActions(kernels, hw))
  {
    var n := |kernels| - 1;
    var before, block := RemoveActions(kernels[..n], hw), RemoveBlock(kernels[n], hw);
    var all := RemoveActions(kernels, hw);
    if k == kernels[n] {
      assert all[|before|] == block[0];
      assert Packages(all)[|before|] == k.name;
    } else {
      KernelNamesRemoved(kernels[..n], hw, k);
      var i :| 0 <= i < |before| && Packages(before)[i] == k.name;
      assert Packages(all)[i] == k.name;
    }
  }

  lemma {:induction false} ChosenHas(raws: seq<string>, catalog: Catalog, raw: string)
    requires raw in raws && raw in catalog
    ensures catalog[raw] in Chosen(raws, catalog)
  {
    var n := |raws| - 1;
    if raw != raws[n] {
      ChosenHas(raws[..n], catalog, raw);
    }
  }

  /** The removal command names only installed packages exactly when the kernels looked up for the
      removal set are installed: their names are the only ones added without that test. */
  lemma {:induction false} RemovalsInstalledExactly(s: Session)
    ensures (forall p | p in AskedToRemove(s.Emitted()) :: p in s.hw.installed)
            <==> var catalog := KernelsByRaw(s.Kernels());
                 forall raw | raw in RemovalSet(s.Rows()) && raw in catalog :: catalog[raw].name in s.hw.installed
  {
    var catalog := KernelsByRaw(s.Kernels());
    var raws := RemovalSet(s.Rows());
    var chosen := Chosen(raws, catalog);
    CommandsConserve(s.aurEnabled, AurNames(Chosen(InstallSet(s.Rows()), catalog)), s.Installs(), s.Removals());
    forall raw | raw in raws && raw in catalog ensures catalog[raw].name in AskedToRemove(s.Emitted()) {
      ChosenHas(raws, catalog, raw);
      KernelNamesRemoved(chosen, s.hw, catalog[raw]);
    }
    forall p | p in AskedToRemove(s.Emitted())
      ensures p in s.hw.installed || exists raw | raw in raws :: raw in catalog && catalog[raw].name == p
    {
      var k := RemovedFrom(chosen, s.hw, p);
    }
  }

  lemma {:induction false} RowsFresh(s: Session)
    ensures Fresh(RowsOf(s.Kernels(), s.local, s.older))
  {
    var rows := RowsOf(s.Kernels(), s.local, s.older);
    forall row | row in rows ensures row.checked == (row.installed && row.immutable) && (row.immutable ==> row.installed) {
      var i :| 0 <= i < |rows| && rows[i] == row;
      assert row == RowOf(s.Kernels()[i], s.local, s.older);
    }
  }

  /** A changed name belongs to exactly one kernel. */
  lemma {:induction false} ChangedKernel(s: Session, raw: string) returns (i: nat)
    requires raw in Changes(s.Rows())
    ensures var kernels := s.Kernels();
            && i < |kernels| && kernels[i].raw == raw
            && (forall j | 0 <= j < |kernels| && kernels[j].raw == raw :: j == i)
            && |s.Rows()| == |kernels| && s.Rows()[i].raw == raw && s.Rows()[i].installed == (kernels[i].name in s.local)
            && KernelsByRaw(kernels)[raw] == kernels[i]
  {
    var initial := RowsOf(s.Kernels(), s.local, s.older);
    RowsFresh(s);
    i := ChangedOnce(initial, s.presses, raw);
    PressParity(initial, s.presses);
    assert initial[i] == RowOf(s.Kernels()[i], s.local, s.older);
    forall j | 0 <= j < |initial| && s.Kernels()[j].raw == raw ensures j == i {
      assert initial[j] == RowOf(s.Kernels()[j], s.local, s.older);
    }
  }

  /** A name that two rows share is never selected: it reaches neither phase, whatever is pressed. */
  lemma {:induction false} SharedNeverSelected(s: Session, i: nat, j: nat)
    requires i < j < |s.Kernels()| && s.Kernels()[i].raw == s.Kernels()[j].raw
    ensures var raw := s.Kernels()[i].raw;
            raw !in Changes(s.Rows()) && raw !in InstallSet(s.Rows()) && raw !in RemovalSet(s.Rows())
  {
    var raw := s.Kernels()[i].raw;
    if raw in Changes(s.Rows()) {
      var k := ChangedKernel(s, raw);
    }
  }

  // ---------- what a session asks for, in its own terms ----------

  /** The checkbox of kernel `i` counts: no other kernel has its raw name, and it was pressed an odd
      number of times. */
  ghost predicate Pressed(s: Session, i: nat)
    requires i < |s.Kernels()|
  {
    var raw := s.Kernels()[i].raw;
    OddTimes(s.presses, raw) && forall j | 0 <= j < |s.Kernels()| && s.Kernels()[j].raw == raw :: j == i
  }

  /** Selected, and not installed or older than its repository has it. */
  ghost predicate ToInstall(s: Session, i: nat)
    requires i < |s.Kernels()|
  {
    var k := s.Kernels()[i];
    Pressed(s, i) && (k.name !in s.local || (k.repo != "aur" && s.older(s.local[k.name].version, k.version)))
  }

  ghost predicate ToRemove(s: Session, i: nat)
    requires i < |s.Kernels()|
  {
    Pressed(s, i) && s.Kernels()[i].name in s.local
  }

  /** What the row of a kernel shows: it is marked as its repository's when the local database says so
      or says nothing, and its checkbox starts out as that and flips with every press it gets. */
  lemma {:induction false} RowShown(s: Session, i: nat)
    requires i < |s.Kernels()|
    ensures |s.Rows()| == |s.Kernels()|
    ensures var k, row := s.Kernels()[i], s.Rows()[i];
            && row.raw == k.raw && row.name == k.name && (row.installed <==> k.name in s.local)
            && (row.immutable <==> k.name in s.local && (s.local[k.name].db == None || s.local[k.name].db == Some(k.repo)))
            && (row.updateAvailable <==>
                  k.name in s.local && k.repo != "aur" && s.older(s.local[k.name].version, k.version))
            && (row.checked <==>
                  row.immutable != (OddTimes(s.presses, k.raw) && forall j | 0 <= j < i :: s.Kernels()[j].raw != k.raw))
  {
    var initial := RowsOf(s.Kernels(), s.local, s.older);
    PressParity(initial, s.presses);
    assert initial[i] == RowOf(s.Kernels()[i], s.local, s.older);
    assert forall j | 0 <= j < |initial| :: initial[j].raw == s.Kernels()[j].raw;
    hide OddTimes, PressAll;
  }

  lemma {:induction false} Marks(s: Session) returns (initial: seq<KernelRow>, marks: seq<bool>)
    ensures |marks| == |initial| == |s.Kernels()| == |s.Rows()| && Changes(s.Rows()) == Pick(initial, marks)
    ensures forall i | 0 <= i < |marks| :: initial[i].raw == s.Kernels()[i].raw && (marks[i] <==> Pressed(s, i))
  {
    initial := RowsOf(s.Kernels(), s.local, s.older);
    RowsFresh(s);
    PressParity(initial, s.presses);
    ChangesAreOddPresses(initial, s.presses);
    marks := SoleOddMarks(initial, s.presses);
    assert forall i | 0 <= i < |initial| :: initial[i].raw == s.Kernels()[i].raw;
    hide OddTimes, Changes, Pick, PressAll;
  }

  lemma {:induction false} FirstIsSole(s: Session, i: nat)
    requires i < |s.Kernels()| && Pressed(s, i)
    ensures Installable(s.Rows(), s.Kernels()[i].raw) <==> ToInstall(s, i)
    ensures Removable(s.Rows(), s.Kernels()[i].raw) <==> ToRemove(s, i)
  {
    var raw, rows := s.Kernels()[i].raw, s.Rows();
    RowShown(s, i);
    assert rows[i] in rows;
    forall row | row in rows && row.raw == raw ensures row == rows[i] {
      var j :| 0 <= j < |rows| && rows[j] == row;
      RowShown(s, j);
    }
    hide Session.Rows, Session.Kernels, OddTimes;
  }

  /** Which kernels reach the two phases, from databases, local database and presses alone. */
  lemma {:induction false} SelectedExactly(s: Session, i: nat)
    requires i < |s.Kernels()|
    ensures s.Kernels()[i].raw in InstallSet(s.Rows()) <==> ToInstall(s, i)
    ensures s.Kernels()[i].raw in RemovalSet(s.Rows()) <==> ToRemove(s, i)
  {
    var raw := s.Kernels()[i].raw;
    var initial, marks := Marks(s);
    PickMembers(initial, marks, raw);
    if raw in Changes(s.Rows()) {
      var j :| 0 <= j < |initial| && marks[j] && initial[j].raw == raw;
      assert Pressed(s, j) && j == i;
    }
    if Pressed(s, i) {
      FirstIsSole(s, i);
      assert marks[i] && initial[i].raw == raw;
    }
    hide Changes, Pick, Installable, Removable, OddTimes;
  }

  lemma {:induction false} PhaseNames(s: Session, keep: string -> bool, wanted: nat -> bool) returns (at: seq<nat>)
    requires forall i: nat | i < |s.Kernels()| && Pressed(s, i) :: keep(s.Kernels()[i].raw) == wanted(i)
    ensures var raws := Filter(Changes(s.Rows()), keep);
            && |at| == |raws| && Ascending(at)
            && (forall n | 0 <= n < |at| ::
                  at[n] < |s.Kernels()| && raws[n] == s.Kernels()[at[n]].raw && Pressed(s, at[n]) && wanted(at[n]))
    ensures forall i: nat | i < |s.Kernels()| && Pressed(s, i) && wanted(i) :: i in at
  {
    var initial, marks := Marks(s);
    at := FilteredRows(initial, marks, keep);
    var xs := Marked(initial, marks);
    hide Changes, Pick, Filter, Pressed;
    forall n | 0 <= n < |at|
      ensures at[n] < |s.Kernels()| && Filter(Changes(s.Rows()), keep)[n] == s.Kernels()[at[n]].raw
      ensures Pressed(s, at[n]) && wanted(at[n])
    {
      assert MarkedAnd(keep)(xs[at[n]]) && Filter(Changes(s.Rows()), keep)[n] == RawOf(xs[at[n]]);
    }
    forall i: nat | i < |s.Kernels()| && Pressed(s, i) && wanted(i) ensures i in at {
      assert MarkedAnd(keep)(xs[i]);
    }
  }

  /** The kernels a phase works on are those, in the order of the rows. */
  lemma {:induction false} PhaseOrder(s: Session, keep: string -> bool, wanted: nat -> bool) returns (at: seq<nat>)
    requires forall i: nat | i < |s.Kernels()| && Pressed(s, i) :: keep(s.Kernels()[i].raw) == wanted(i)
    ensures var chosen := Chosen(Filter(Changes(s.Rows()), keep), KernelsByRaw(s.Kernels()));
            && |at| == |chosen| && Ascending(at)
            && (forall n | 0 <= n < |at| :: at[n] < |s.Kernels()| && chosen[n] == s.Kernels()[at[n]])
    ensures forall i: nat | i < |s.Kernels()| :: i in at <==> Pressed(s, i) && wanted(i)
  {
    at := PhaseNames(s, keep, wanted);
    var kernels, catalog := s.Kernels(), KernelsByRaw(s.Kernels());
    var raws := Filter(Changes(s.Rows()), keep);
    hide Session.Rows, Session.Kernels, Changes, Filter, Chosen, KernelsByRaw, Pressed;
    forall n | 0 <= n < |at| ensures raws[n] in catalog && catalog[raws[n]] == kernels[at[n]] {
      SoleInCatalog(s, at[n]);
    }
    ChosenAll(raws, catalog);
  }

  lemma SoleInCatalog(s: Session, i: nat)
    requires i < |s.Kernels()| && Pressed(s, i)
    ensures s.Kernels()[i].raw in KernelsByRaw(s.Kernels()) && KernelsByRaw(s.Kernels())[s.Kernels()[i].raw] == s.Kernels()[i]
  {
    var kernels := s.Kernels();
    assert kernels[i] in kernels;
    var k := KernelsByRaw(kernels)[kernels[i].raw];
    var j :| 0 <= j < |kernels| && kernels[j] == k;
  }

  ghost function Selected(s: Session): seq<DiscoveredKernel> {
    Chosen(InstallSet(s.Rows()), KernelsByRaw(s.Kernels()))
  }

  /** The kernels to install, in the order of the rows. */
  lemma {:induction false} InstallOrder(s: Session) returns (at: seq<nat>)
    ensures |at| == |Selected(s)| && Ascending(at)
    ensures forall n | 0 <= n < |at| :: at[n] < |s.Kernels()| && Selected(s)[n] == s.Kernels()[at[n]]
    ensures forall i: nat | i < |s.Kernels()| :: i in at <==> ToInstall(s, i)
  {
    var rows := s.Rows();
    forall i: nat | i < |s.Kernels()| && Pressed(s, i) ensures Installable(rows, s.Kernels()[i].raw) <==> ToInstall(s, i) {
      FirstIsSole(s, i);
    }
    hide Installable, Pressed;
    at := PhaseOrder(s, raw => Installable(rows, raw), (i: nat) => i < |s.Kernels()| && ToInstall(s, i));
  }

  lemma {:induction false} RemovalOrder(s: Session) returns (at: seq<nat>)
    ensures var chosen := Chosen(RemovalSet(s.Rows()), KernelsByRaw(s.Kernels()));
            |at| == |chosen| && forall n | 0 <= n < |at| :: at[n] < |s.Kernels()| && chosen[n] == s.Kernels()[at[n]]
    ensures Ascending(at) && forall i: nat | i < |s.Kernels()| :: i in at <==> ToRemove(s, i)
  {
    var rows := s.Rows();
    forall i: nat | i < |s.Kernels()| && Pressed(s, i) ensures Removable(rows, s.Kernels()[i].raw) <==> ToRemove(s, i) {
      FirstIsSole(s, i);
    }
    hide Removable, Pressed;
    at := PhaseOrder(s, raw => Removable(rows, raw), (i: nat) => i < |s.Kernels()| && ToRemove(s, i));
  }

  /** The `n`-th of some kernels brings a package in, by the answers its own probes gave. */
  predicate BringsIn(kernels: seq<DiscoveredKernel>, hw: HardwareProfile, families: Families, n: nat, p: string) {
    && n < |kernels| && kernels[n].repo != "aur"
    && var (closed, open) := families(n);
       InstalledWith(kernels[n], hw.(nvidiaModulesInstalled := closed, nvidiaOpenModulesInstalled := open), p)
  }

  lemma {:induction false} ProbedInstallsExactly(kernels: seq<DiscoveredKernel>, hw: HardwareProfile, families: Families, p: string)
    ensures p in Packages(ProbedInstalls(kernels, hw, families)) <==> exists n: nat :: BringsIn(kernels, hw, families, n, p)
  {
    hide InstallBlock, InstalledWith, Packages;
    if kernels == [] {
      NoPackages(p);
    } else {
      var n := |kernels| - 1;
      var before, hwn := ProbedInstalls(kernels[..n], hw, families), Probed(hw, families(n));
      ProbedInstallsExactly(kernels[..n], hw, families, p);
      InstallBlockExactly(kernels[n], hwn, p);
      PackagesAppend(before, InstallBlock(kernels[n], hwn), p);
      assert ProbedInstalls(kernels, hw, families)
             == if kernels[n].repo == "aur" then before else before + InstallBlock(kernels[n], hwn);
      assert BringsIn(kernels, hw, families, n, p) <==> kernels[n].repo != "aur" && InstalledWith(kernels[n], hwn, p);
      if m: nat :| BringsIn(kernels[..n], hw, families, m, p) {
        assert BringsIn(kernels, hw, families, m, p);
      }
      if m: nat :| m != n && BringsIn(kernels, hw, families, m, p) {
        assert BringsIn(kernels[..n], hw, families, m, p);
      }
    }
  }

  lemma NoPackages(p: string)
    ensures p !in Packages([])
  {
  }

  /** The install command, complete: a package is in it exactly when a selected repository kernel is
      installed with it, the `n`-th by the `n`-th probe answers. */
  lemma {:induction false} InstallsExactly(s: Session, p: string)
    ensures p in AskedToInstall(s.Emitted()) <==> exists n: nat :: BringsIn(Selected(s), s.hw, s.families, n, p)
  {
    CommandsConserve(s.aurEnabled, AurNames(Selected(s)), s.Installs(), s.Removals());
    ProbedInstallsExactly(Selected(s), s.hw, s.families, p);
  }

  /** So every selected repository kernel is installed, and its headers with it, and its ZFS module
      exactly where it has one and root is on ZFS. */
  lemma {:induction false} SelectedInstalled(s: Session, i: nat)
    requires i < |s.Kernels()| && ToInstall(s, i) && s.Kernels()[i].repo != "aur"
    ensures var k, asked := s.Kernels()[i], AskedToInstall(s.Emitted());
            && k.name in asked && k.headers in asked
            && (s.hw.rootOnZfs && k.companions.zfs.Some? ==> k.companions.zfs.value in asked)
  {
    var at := InstallOrder(s);
    var n :| 0 <= n < |at| && at[n] == i;
    var k := s.Kernels()[i];
    hide Selected, ToInstall, Session.Emitted;
    assert BringsIn(Selected(s), s.hw, s.families, n, k.name) && BringsIn(Selected(s), s.hw, s.families, n, k.headers);
    InstallsExactly(s, k.name);
    InstallsExactly(s, k.headers);
    if s.hw.rootOnZfs && k.companions.zfs.Some? {
      assert BringsIn(Selected(s), s.hw, s.families, n, k.companions.zfs.value);
      InstallsExactly(s, k.companions.zfs.value);
    }
  }

  predicate RemovedWith(k: DiscoveredKernel, hw: HardwareProfile, p: string) {
    p == k.name || (p in k.Packages() && p in hw.installed)
  }

  lemma {:induction false} PlanRemovesExactly(kernels: seq<DiscoveredKernel>, hw: HardwareProfile, p: string)
    ensures p in Packages(RemoveActions(kernels, hw))
            <==> exists k | k in kernels :: RemovedWith(k, hw, p)
  {
    hide RemoveBlock, Packages, DiscoveredKernel.Packages;
    if kernels == [] {
      NoPackages(p);
    } else {
      var n := |kernels| - 1;
      PlanRemovesExactly(kernels[..n], hw, p);
      RemoveBlockExactly(kernels[n], hw, p);
      PackagesAppend(RemoveActions(kernels[..n], hw), RemoveBlock(kernels[n], hw), p);
      assert kernels == kernels[..n] + [kernels[n]];
      assert RemoveActions(kernels, hw) == RemoveActions(kernels[..n], hw) + RemoveBlock(kernels[n], hw);
      assert RemovedWith(kernels[n], hw, p) <==> p in Packages(RemoveBlock(kernels[n], hw));
      hide RemovedWith;
    }
  }

  ghost predicate TakesAway(s: Session, i: nat, p: string) {
    i < |s.Kernels()| && ToRemove(s, i) && RemovedWith(s.Kernels()[i], s.hw, p)
  }

  lemma {:induction false} RemovesChosen(s: Session, p: string)
    ensures p in AskedToRemove(s.Emitted())
            <==> exists k | k in Chosen(RemovalSet(s.Rows()), KernelsByRaw(s.Kernels())) :: RemovedWith(k, s.hw, p)
  {
    CommandsConserve(s.aurEnabled, AurNames(Selected(s)), s.Installs(), s.Removals());
    PlanRemovesExactly(Chosen(RemovalSet(s.Rows()), KernelsByRaw(s.Kernels())), s.hw, p);
  }

  /** The removal command, complete: each selected kernel that the rows knew as installed, and those of
      its packages that are installed now. */
  lemma {:induction false} RemovesExactly(s: Session, p: string)
    ensures p in AskedToRemove(s.Emitted()) <==> exists i: nat :: TakesAway(s, i, p)
  {
    var chosen := Chosen(RemovalSet(s.Rows()), KernelsByRaw(s.Kernels()));
    hide ToRemove, RemovalSet, RemovedWith, Session.Emitted, Session.Rows, Session.Kernels, Chosen, KernelsByRaw;
    RemovesChosen(s, p);
    var at := RemovalOrder(s);
    if k :| k in chosen && RemovedWith(k, s.hw, p) {
      var n :| 0 <= n < |chosen| && chosen[n] == k;
      assert at[n] in at;
      assert TakesAway(s, at[n], p);
    }
    if i: nat :| TakesAway(s, i, p) {
      var n :| 0 <= n < |at| && at[n] == i;
      assert chosen[n] in chosen;
    }
  }

  /** What is built from the AUR: exactly the selected "aur" kernels without "headers" in the name, and
      nothing while the AUR is disabled. */
  lemma {:induction false} AurBuildsExactly(s: Session, name: string)
    ensures name in Buildable(AurNames(Selected(s)))
            <==> NoHeaders(name) && exists i: nat | i < |s.Kernels()| :: ToInstall(s, i) && FromAur(s.Kernels()[i]) && s.Kernels()[i].name == name
  {
    var names := AurNames(Selected(s));
    var at := InstallOrder(s);
    var from := AurNamesExactly(Selected(s));
    var origin := BuildableExactly(names);
    hide ToInstall, AurNames, Buildable, NoHeaders, Selected;
    if name in Buildable(names) {
      var n :| 0 <= n < |Buildable(names)| && Buildable(names)[n] == name;
      var m := from[origin[n]];
      assert at[m] in at && NameOf(Selected(s)[m]) == name;
    }
    if i: nat :| i < |s.Kernels()| && ToInstall(s, i) && FromAur(s.Kernels()[i]) && s.Kernels()[i].name == name {
      var n :| 0 <= n < |at| && at[n] == i;
      assert n in from;
      var m :| 0 <= m < |from| && from[m] == n;
      assert names[m] == NameOf(Selected(s)[n]) == name;
      if NoHeaders(name) {
        assert m in origin;
      }
    }
  }

  /** Every package of the emitted removal command is installed. */
  ghost predicate RemovesInstalled(s: Session) {
    forall p | p in AskedToRemove(s.Emitted()) :: p in s.hw.installed
  }

  /** When the rows' flags and the hardware facts come from the same local database, every package of
      the emitted removal command is installed. */
  lemma {:induction false} RemovalProvenance(s: Session)
    requires s.hw.installed == s.local.Keys
    ensures RemovesInstalled(s)
  {
    var catalog := KernelsByRaw(s.Kernels());
    forall raw | raw in RemovalSet(s.Rows()) && raw in catalog ensures catalog[raw].name in s.hw.installed {
      var i := ChangedKernel(s, raw);
      var row :| row in s.Rows() && row.raw == raw && row.installed;
      var n :| 0 <= n < |s.Rows()| && s.Rows()[n] == row;
      RowNames(s, n);
    }
    RemovalsInstalledExactly(s);
  }

  lemma {:induction false} RowNames(s: Session, n: nat)
    requires n < |s.Rows()|
    ensures |s.Rows()| == |s.Kernels()| && s.Rows()[n].raw == s.Kernels()[n].raw
  {
    PressParity(RowsOf(s.Kernels(), s.local, s.older), s.presses);
    assert RowsOf(s.Kernels(), s.local, s.older)[n] == RowOf(s.Kernels()[n], s.local, s.older);
  }

  // ---------- sessions that show the conditions are needed ----------

  const NO_HARDWARE := HardwareProfile(false, false, false, {}, false, false)

  /** The session in which only `k` is installed when the rows are built, its row is pressed once, and
      nothing is installed when the worker looks. */
  function Stale(dbs: seq<SyncDb>, k: DiscoveredKernel): Session {
    Session(dbs, [], map[k.name := LocalPackage(None, "")], (a, b) => false, [k.raw], NO_HARDWARE, n => (false, false), false)
  }

  /** The worker reads the local database again after the rows were built: over any databases, a
      kernel that is gone by then is still named by the removal command, if only one row has its
      name. */
  lemma {:induction false} StaleRowsRemoveMissing(dbs: seq<SyncDb>, i: nat) returns (s: Session)
    requires i < |Discovered(dbs)|
    requires forall j | 0 <= j < |Discovered(dbs)| && Discovered(dbs)[j].raw == Discovered(dbs)[i].raw :: j == i
    ensures s.Valid() && s.Resolves() && s.dbs == dbs && s.presses == [Discovered(dbs)[i].raw]
    ensures Discovered(dbs)[i].name in s.local && s.hw.installed == {} && !RemovesInstalled(s)
  {
    hide RemovesInstalled, Session.Emitted, Session.Rows, RemovalSet, Discovered, RowsOf, KernelsByRaw;
    var k := Discovered(dbs)[i];
    s := Stale(dbs, k);
    StaleFits(dbs, i);
    PressedOnce(s, i);
    MissingRemoved(s, k.raw);
  }

  lemma StaleFits(dbs: seq<SyncDb>, i: nat)
    requires i < |Discovered(dbs)|
    ensures var k := Discovered(dbs)[i];
            var s := Stale(dbs, k);
            s.Kernels() == Discovered(dbs) && s.Valid() && s.Resolves() && k.raw in KernelsByRaw(s.Kernels())
  {
    hide Discovered;
    var k := Discovered(dbs)[i];
    assert Stale(dbs, k).Kernels() == Discovered(dbs);
    assert k in Discovered(dbs);
  }

  lemma MissingRemoved(s: Session, raw: string)
    requires raw in RemovalSet(s.Rows()) && raw in KernelsByRaw(s.Kernels()) && s.hw.installed == {}
    ensures !RemovesInstalled(s)
  {
    RemovalsInstalledExactly(s);
    hide Session.Emitted, Session.Rows, RemovalSet;
  }

  lemma {:induction false} PressedOnce(s: Session, i: nat)
    requires i < |s.Kernels()| && s.presses == [s.Kernels()[i].raw] && s.Kernels()[i].name in s.local
    requires forall j | 0 <= j < |s.Kernels()| && s.Kernels()[j].raw == s.Kernels()[i].raw :: j == i
    ensures s.Kernels()[i].raw in RemovalSet(s.Rows())
  {
    var raw, initial := s.Kernels()[i].raw, RowsOf(s.Kernels(), s.local, s.older);
    RowsFresh(s);
    assert initial[i] == RowOf(s.Kernels()[i], s.local, s.older);
    forall j | 0 <= j < |initial| && initial[j].raw == raw ensures j == i {
      assert initial[j] == RowOf(s.Kernels()[j], s.local, s.older);
    }
    assert !OddTimes([], raw) && s.presses[..0] == [];
    ChangesAreOddPresses(initial, s.presses);
    var marks := SoleOddMarks(initial, s.presses);
    assert marks[i];
    PickMembers(initial, marks, raw);
    PressParity(initial, s.presses);
    assert s.Rows()[i] in s.Rows() && s.Rows()[i].installed;
    assert Removable(s.Rows(), raw);
  }

  const STOCK_HEADERS := LINUX + HEADERS

  const STOCK := [SyncDb("core", [DbPackage(LINUX, "6.1"), DbPackage(STOCK_HEADERS, "6.1")])]

  lemma {:induction false} StockHeadersFound()
    ensures NEEDLE.FoundIn(STOCK_HEADERS) && !IsApiHeaders(STOCK_HEADERS)
  {
    hide Regex.Accepts, Regex.FoundIn, IsApiHeaders;
    assert STOCK_HEADERS[0..5] == LINUX && STOCK_HEADERS[5..13] == HEADERS && STOCK_HEADERS[5..5] == "";
    MatchAtAccepts(STOCK_HEADERS, 0, 5);
    NotApi(STOCK_HEADERS);
  }

  /** The kernel is discovered, and its package, which is no headers package, gives no second row. */
  lemma {:induction false} StockSelects()
    ensures Selects(STOCK, 0, 1) && KernelAt(STOCK, (0, 1)).name == LINUX
    ensures forall d: nat, p: nat :: Selects(STOCK, d, p) ==> (d, p) == (0, 1)
  {
    hide Regex.FoundIn, IsApiHeaders, KernelHeadersName, Irreducible, FindFrom, OccursAt;
    StockHeadersFound();
    MissingChar(LINUX, '-');
    UsualNameExactly(LINUX);
    assert STOCK[0].packages[0].name == LINUX && STOCK[0].packages[1].name == STOCK_HEADERS;
    assert STOCK[0].Has(LINUX);
    ShortNotFound(LINUX);
  }

  lemma {:induction false} ShortNotFound(name: string)
    requires |name| < |LINUX| + |HEADERS|
    ensures !NEEDLE.FoundIn(name)
  {
    if NEEDLE.FoundIn(name) {
      var i, e :| 0 <= i <= e <= |name| && NEEDLE.Accepts(name[i..e]);
      var j := AcceptedIsMatchAt(name, i, e);
    }
  }

  /** Such a session: the stock kernel, removed by someone else before Execute. */
  lemma {:induction false} StaleStockSession() returns (s: Session)
    ensures s.Valid() && s.Resolves() && s.dbs == STOCK && LINUX in s.local && s.hw.installed == {} && !RemovesInstalled(s)
  {
    StockSelects();
    var slots := DiscoveryExact(STOCK);
    assert (0, 1) in slots;
    var i :| 0 <= i < |slots| && slots[i] == (0, 1);
    forall j | 0 <= j < |slots| && Selects(STOCK, slots[j].0, slots[j].1) ensures j == i {
      assert Earlier(slots[i], slots[j]) || Earlier(slots[j], slots[i]) || i == j;
    }
    s := StaleRowsRemoveMissing(STOCK, i);
  }

  // ---------- two headers packages of one kernel ----------

  const TWIN_KERNEL := "linux-foo"

  const TWINS := [SyncDb("core", [DbPackage(TWIN_KERNEL, "6.1"), DbPackage("linux-foo-headers", "6.1"),
                                  DbPackage("linux-headers-foo", "6.1")])]

  lemma {:induction false} TwinsFound()
    ensures NEEDLE.FoundIn("linux-foo-headers") && NEEDLE.FoundIn("linux-headers-foo")
  {
    hide Regex.Accepts, Regex.FoundIn;
    var a, b := "linux-foo-headers", "linux-headers-foo";
    assert a[0..5] == LINUX && a[9..17] == HEADERS && a[5..9] == "-foo";
    MatchAtAccepts(a, 0, 9);
    assert b[0..5] == LINUX && b[5..13] == HEADERS && b[5..5] == "";
    MatchAtAccepts(b, 0, 5);
  }

  lemma {:induction false} TwinsStrip()
    ensures KernelHeadersName("linux-foo-headers") == KernelHeadersName("linux-headers-foo") == TWIN_KERNEL
  {
    hide KernelHeadersName, Irreducible, StripAll;
    MissingChar(TWIN_KERNEL, 'h');
    UsualNameExactly(TWIN_KERNEL);
    assert TWIN_KERNEL + HEADERS == "linux-foo-headers";
    MissingChar(LINUX, '-');
    MissingChar("-foo", 'h');
    SingleHeadersExactly(LINUX, "-foo");
    assert LINUX + HEADERS + "-foo" == "linux-headers-foo" && LINUX + "-foo" == TWIN_KERNEL;
  }

  lemma {:induction false} TwinsNotApi()
    ensures !IsApiHeaders("linux-foo-headers") && !IsApiHeaders("linux-headers-foo")
  {
    hide IsApiHeaders;
    NotApi("linux-foo-headers");
    NotApi("linux-headers-foo");
  }

  lemma {:induction false} TwinsSelect()
    ensures Selects(TWINS, 0, 1) && Selects(TWINS, 0, 2)
    ensures KernelAt(TWINS, (0, 1)).raw == KernelAt(TWINS, (0, 2)).raw == RawName("core", TWIN_KERNEL)
  {
    hide Regex.FoundIn, IsApiHeaders, KernelHeadersName;
    TwinsFound();
    TwinsStrip();
    TwinsNotApi();
    assert TWINS[0].packages[0].name == TWIN_KERNEL;
    assert TWINS[0].Has(TWIN_KERNEL);
  }

  lemma {:induction false} TwinRows() returns (i: nat, j: nat)
    ensures i < j < |Discovered(TWINS)|
    ensures Discovered(TWINS)[i].raw == Discovered(TWINS)[j].raw == RawName("core", TWIN_KERNEL)
  {
    TwinsSelect();
    var slots := DiscoveryExact(TWINS);
    hide Selects, KernelAt, Discovered;
    assert (0, 1) in slots && (0, 2) in slots;
    i :| 0 <= i < |slots| && slots[i] == (0, 1);
    j :| 0 <= j < |slots| && slots[j] == (0, 2);
    assert i != j && !Earlier(slots[j], slots[i]);
  }

  /** A kernel with two headers packages has two rows, and can neither be installed nor removed. */
  lemma {:induction false} TwinsNeverSelected(s: Session)
    requires s.dbs == TWINS
    ensures var raw := RawName("core", TWIN_KERNEL);
            && (exists k :: k in s.Kernels() && k.raw == raw)
            && raw !in Changes(s.Rows()) && raw !in InstallSet(s.Rows()) && raw !in RemovalSet(s.Rows())
  {
    var i, j := TwinRows();
    hide RawName, Discovered, Session.Rows, Changes, InstallSet, RemovalSet;
    assert s.Kernels()[i] in s.Kernels();
    SharedNeverSelected(s, i, j);
  }
}
