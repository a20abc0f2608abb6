/** From a selection to package actions to commands
    (crates/cachyos-kernel-manager-plan/src/lib.rs). */
module Planning {
  import opened Text
  import opened Discovery
  import opened Selection
  import opened Sequences

  datatype Reason =
    | SelectedKernel | RequiredHeaders | ZfsRootCompanion | NvidiaCompanion
    | NvidiaOpenCompanion | ExistingModuleFamily | RemovalCompanion

  datatype PackageAction = PackageAction(package: string, reason: Reason)

  datatype HardwareProfile = HardwareProfile(
    rootOnZfs: bool, chwdNvidia: bool, chwdNvidiaOpen: bool, installed: set<string>,
    nvidiaModulesInstalled: bool, nvidiaOpenModulesInstalled: bool)

  datatype CommandPlan =
    | InstallRepoPackages(packages: seq<string>, needed: bool)
    | RemovePackages(packages: seq<string>)
    | GitRefresh(url: string, dir: string)
    | BuildAurPackage(dir: string)

  const AUR := "aur"

  // ---------- what one kernel contributes ----------

  predicate DkmsInstalled(hw: HardwareProfile) {
    "nvidia-dkms" in hw.installed || "nvidia-open-dkms" in hw.installed
  }

  /** The NVIDIA flavour by precedence: DKMS rules every prebuilt module out; otherwise a module
      family already installed wins over the detected profile, and open wins over closed. */
  function Flavour(kernel: DiscoveredKernel, hw: HardwareProfile): Option<PackageAction> {
    var open, closed := kernel.companions.nvidiaOpen, kernel.companions.nvidia;
    if DkmsInstalled(hw) then None
    else if open.Some? && hw.nvidiaOpenModulesInstalled then Some(PackageAction(open.value, ExistingModuleFamily))
    else if closed.Some? && hw.nvidiaModulesInstalled then Some(PackageAction(closed.value, ExistingModuleFamily))
    else if open.Some? && hw.chwdNvidiaOpen then Some(PackageAction(open.value, NvidiaOpenCompanion))
    else if closed.Some? && hw.chwdNvidia then Some(PackageAction(closed.value, NvidiaCompanion))
    else None
  }

  function One<T>(o: Option<T>): seq<T> {
    if o.Some? then [o.value] else []
  }

  function InstallBlock(kernel: DiscoveredKernel, hw: HardwareProfile): seq<PackageAction> {
    (if hw.rootOnZfs && kernel.companions.zfs.Some?
     then [PackageAction(kernel.companions.zfs.value, ZfsRootCompanion)] else [])
    + One(Flavour(kernel, hw))
    + [PackageAction(kernel.name, SelectedKernel), PackageAction(kernel.headers, RequiredHeaders)]
  }

  function IfInstalled(o: Option<string>, hw: HardwareProfile): seq<PackageAction> {
    if o.Some? && o.value in hw.installed then [PackageAction(o.value, RemovalCompanion)] else []
  }

  function RemoveBlock(kernel: DiscoveredKernel, hw: HardwareProfile): seq<PackageAction> {
    [PackageAction(kernel.name, SelectedKernel)]
    + IfInstalled(Some(kernel.headers), hw)
    + IfInstalled(kernel.companions.zfs, hw)
    + IfInstalled(kernel.companions.nvidia, hw)
    + IfInstalled(kernel.companions.nvidiaOpen, hw)
  }

  /** When exactly each prebuilt module accompanies a kernel. The two names differ. */
  lemma FlavourExactly(kernel: DiscoveredKernel, hw: HardwareProfile)
    requires kernel.companions.nvidia.Some? && kernel.companions.nvidiaOpen.Some? ==>
               kernel.companions.nvidia != kernel.companions.nvidiaOpen
    ensures var open, closed, f := kernel.companions.nvidiaOpen, kernel.companions.nvidia, Flavour(kernel, hw);
            var openFamily, closedFamily := hw.nvidiaOpenModulesInstalled && open.Some?, hw.nvidiaModulesInstalled && closed.Some?;
            && (f.Some? && Some(f.value.package) == open
                <==> !DkmsInstalled(hw) && open.Some? && (openFamily || (hw.chwdNvidiaOpen && !closedFamily)))
            && (f.Some? && Some(f.value.package) == closed
                <==> !DkmsInstalled(hw) && closed.Some? && !openFamily
                     && (closedFamily || (hw.chwdNvidia && !(hw.chwdNvidiaOpen && open.Some?))))
            && (f.Some? ==> (f.value.reason == ExistingModuleFamily <==> openFamily || closedFamily))
  {
  }

  /** When the open module is installed with the kernel, and when the closed one: never next to a DKMS
      module; an installed module family decides, open before closed, and else the detected profile. */
  predicate NeedsOpen(kernel: DiscoveredKernel, hw: HardwareProfile) {
    var open, closed := kernel.companions.nvidiaOpen.Some?, kernel.companions.nvidia.Some?;
    && open && "nvidia-dkms" !in hw.installed && "nvidia-open-dkms" !in hw.installed
    && (hw.nvidiaOpenModulesInstalled || (hw.chwdNvidiaOpen && !(hw.nvidiaModulesInstalled && closed)))
  }

  predicate NeedsClosed(kernel: DiscoveredKernel, hw: HardwareProfile) {
    var open, closed := kernel.companions.nvidiaOpen.Some?, kernel.companions.nvidia.Some?;
    && closed && "nvidia-dkms" !in hw.installed && "nvidia-open-dkms" !in hw.installed
    && !(hw.nvidiaOpenModulesInstalled && open)
    && (hw.nvidiaModulesInstalled || (hw.chwdNvidia && !(hw.chwdNvidiaOpen && open)))
  }

  /** The packages a kernel is installed with. */
  predicate InstalledWith(kernel: DiscoveredKernel, hw: HardwareProfile, p: string) {
    || p == kernel.name || p == kernel.headers
    || (hw.rootOnZfs && kernel.companions.zfs == Some(p))
    || (NeedsOpen(kernel, hw) && kernel.companions.nvidiaOpen == Some(p))
    || (NeedsClosed(kernel, hw) && kernel.companions.nvidia == Some(p))
  }

  lemma FlavourCases(kernel: DiscoveredKernel, hw: HardwareProfile)
    ensures !(NeedsOpen(kernel, hw) && NeedsClosed(kernel, hw))
    ensures var f := Flavour(kernel, hw);
            && (NeedsOpen(kernel, hw) ==>
                  f.Some? && Some(f.value.package) == kernel.companions.nvidiaOpen
                  && f.value.reason == if hw.nvidiaOpenModulesInstalled then ExistingModuleFamily else NvidiaOpenCompanion)
            && (NeedsClosed(kernel, hw) ==>
                  f.Some? && Some(f.value.package) == kernel.companions.nvidia
                  && f.value.reason == if hw.nvidiaModulesInstalled then ExistingModuleFamily else NvidiaCompanion)
            && (f.Some? ==> NeedsOpen(kernel, hw) || NeedsClosed(kernel, hw))
  {
  }

  /** An installed kernel comes with exactly those packages: its ZFS module first, then one NVIDIA
      module, then the kernel and its headers; each at most once, for the reason that brings it in. */
  lemma {:induction false} InstallBlockExactly(kernel: DiscoveredKernel, hw: HardwareProfile, p: string)
    ensures p in Packages(InstallBlock(kernel, hw)) <==> InstalledWith(kernel, hw, p)
    ensures var block, n := InstallBlock(kernel, hw), |InstallBlock(kernel, hw)|;
            var zfs, nvidia := hw.rootOnZfs && kernel.companions.zfs.Some?, NeedsOpen(kernel, hw) || NeedsClosed(kernel, hw);
            && n == 2 + (if zfs then 1 else 0) + (if nvidia then 1 else 0)
            && block[n - 2] == PackageAction(kernel.name, SelectedKernel) && block[n - 1] == PackageAction(kernel.headers, RequiredHeaders)
            && (zfs ==> block[0] == PackageAction(kernel.companions.zfs.value, ZfsRootCompanion))
            && (nvidia ==> Some(block[n - 3]) == Flavour(kernel, hw))
  {
    var block, f := InstallBlock(kernel, hw), Flavour(kernel, hw);
    FlavourCases(kernel, hw);
    InPackages(block, p);
    hide NeedsOpen, NeedsClosed, Flavour, Packages;
    if InstalledWith(kernel, hw, p) {
      assert PackageAction(kernel.name, SelectedKernel) in block && PackageAction(kernel.headers, RequiredHeaders) in block;
      if hw.rootOnZfs && kernel.companions.zfs == Some(p) {
        assert block[0] == PackageAction(p, ZfsRootCompanion);
      }
      if f.Some? {
        assert f.value in block;
      }
    }
  }

  lemma InPackages(actions: seq<PackageAction>, p: string)
    ensures p in Packages(actions) <==> exists a | a in actions :: a.package == p
  {
    if exists a | a in actions :: a.package == p {
      var i :| 0 <= i < |actions| && actions[i].package == p;
      assert Packages(actions)[i] == p;
    }
  }

  lemma InIfInstalled(o: Option<string>, hw: HardwareProfile, p: string)
    ensures (exists a | a in IfInstalled(o, hw) :: a.package == p) <==> o == Some(p) && p in hw.installed
  {
    if o == Some(p) && p in hw.installed {
      assert PackageAction(p, RemovalCompanion) in IfInstalled(o, hw);
    }
  }

  /** A removed kernel takes with it exactly those of its headers and companions that are installed. */
  lemma {:induction false} RemoveBlockExactly(kernel: DiscoveredKernel, hw: HardwareProfile, p: string)
    ensures Packages(RemoveBlock(kernel, hw))[0] == kernel.name
    ensures p in Packages(RemoveBlock(kernel, hw)) <==> p == kernel.name || (p in kernel.Packages() && p in hw.installed)
  {
    var block := RemoveBlock(kernel, hw);
    assert block[0] == PackageAction(kernel.name, SelectedKernel);
    InPackages(block, p);
    InIfInstalled(Some(kernel.headers), hw, p);
    InIfInstalled(kernel.companions.zfs, hw, p);
    InIfInstalled(kernel.companions.nvidia, hw, p);
    InIfInstalled(kernel.companions.nvidiaOpen, hw, p);
    hide IfInstalled;
    assert forall a :: a in block <==>
      a == PackageAction(kernel.name, SelectedKernel) || a in IfInstalled(Some(kernel.headers), hw)
      || a in IfInstalled(kernel.companions.zfs, hw) || a in IfInstalled(kernel.companions.nvidia, hw)
      || a in IfInstalled(kernel.companions.nvidiaOpen, hw);
  }

  function Wanted(hw: HardwareProfile): Option<string> -> bool {
    (o: Option<string>) => o.Some? && o.value in hw.installed
  }

  function AsRemoval(o: Option<string>): PackageAction {
    PackageAction(if o.Some? then o.value else "", RemovalCompanion)
  }

  /** Behind the kernel stand the installed ones among headers, ZFS and the two NVIDIA modules, in that
      order. */
  lemma {:induction false} RemoveBlockInOrder(kernel: DiscoveredKernel, hw: HardwareProfile) returns (origin: seq<nat>)
    ensures RemoveBlock(kernel, hw) != [] && RemoveBlock(kernel, hw)[0] == PackageAction(kernel.name, SelectedKernel)
    ensures var c := kernel.companions;
            Sifts([Some(kernel.headers), c.zfs, c.nvidia, c.nvidiaOpen], Wanted(hw), AsRemoval, RemoveBlock(kernel, hw)[1..], origin)
  {
    hide Sifts, IfInstalled, Wanted, AsRemoval;
    var c := kernel.companions;
    var rest;
    SiftsNone(Wanted(hw), AsRemoval);
    rest, origin := OneMore(c.nvidiaOpen, [], hw, [], []);
    rest, origin := OneMore(c.nvidia, [c.nvidiaOpen] + [], hw, rest, origin);
    rest, origin := OneMore(c.zfs, [c.nvidia] + ([c.nvidiaOpen] + []), hw, rest, origin);
    rest, origin := OneMore(Some(kernel.headers), [c.zfs] + ([c.nvidia] + ([c.nvidiaOpen] + [])), hw, rest, origin);
    assert RemoveBlock(kernel, hw)[1..] == rest;
    assert [Some(kernel.headers)] + ([c.zfs] + ([c.nvidia] + ([c.nvidiaOpen] + []))) == [Some(kernel.headers), c.zfs, c.nvidia, c.nvidiaOpen];
  }

  lemma {:induction false} OneMore(o: Option<string>, os: seq<Option<string>>, hw: HardwareProfile, rest: seq<PackageAction>, origin: seq<nat>)
      returns (all: seq<PackageAction>, more: seq<nat>)
    requires Sifts(os, Wanted(hw), AsRemoval, rest, origin)
    ensures all == IfInstalled(o, hw) + rest && Sifts([o] + os, Wanted(hw), AsRemoval, all, more)
  {
    hide Sifts;
    all := IfInstalled(o, hw) + rest;
    more := SiftsCons(o, os, Wanted(hw), AsRemoval, rest, origin);
    assert all == if Wanted(hw)(o) then [AsRemoval(o)] + rest else rest;
  }

  // ---------- what a selection contributes ----------

  type Catalog = map<string, DiscoveredKernel>

  /** The kernels of a raw list that the catalog knows, in list order. */
  function Chosen(raws: seq<string>, catalog: Catalog): (r: seq<DiscoveredKernel>)
    ensures forall k | k in r :: exists raw | raw in raws :: raw in catalog && catalog[raw] == k
  {
    if raws == [] then []
    else
      var n := |raws| - 1;
      Chosen(raws[..n], catalog) + (if raws[n] in catalog then [catalog[raws[n]]] else [])
  }

  function InstallActions(kernels: seq<DiscoveredKernel>, hw: HardwareProfile): seq<PackageAction> {
    if kernels == [] then []
    else
      var n := |kernels| - 1;
      InstallActions(kernels[..n], hw) + (if kernels[n].repo == AUR then [] else InstallBlock(kernels[n], hw))
  }

  function RemoveActions(kernels: seq<DiscoveredKernel>, hw: HardwareProfile): seq<PackageAction> {
    if kernels == [] then []
    else
      var n := |kernels| - 1;
      RemoveActions(kernels[..n], hw) + RemoveBlock(kernels[n], hw)
  }

  function AurNames(kernels: seq<DiscoveredKernel>): seq<string> {
    if kernels == [] then []
    else
      var n := |kernels| - 1;
      AurNames(kernels[..n]) + (if kernels[n].repo == AUR then [kernels[n].name] else [])
  }

  function Packages(actions: seq<PackageAction>): seq<string> {
    seq(|actions|, i requires 0 <= i < |actions| => actions[i].package)
  }

  /** The later kernel wins, as collecting into a map does. */
  function KernelsByRaw(kernels: seq<DiscoveredKernel>): (r: Catalog)
    ensures forall raw | raw in r :: r[raw] in kernels && r[raw].raw == raw
    ensures forall k | k in kernels :: k.raw in r
  {
    if kernels == [] then map[]
    else
      var n := |kernels| - 1;
      assert kernels == kernels[..n] + [kernels[n]];
      KernelsByRaw(kernels[..n])[kernels[n].raw := kernels[n]]
  }

  /** All names known: one kernel each, in order. */
  lemma {:induction false} ChosenAll(raws: seq<string>, catalog: Catalog)
    requires forall raw | raw in raws :: raw in catalog
    ensures |Chosen(raws, catalog)| == |raws|
    ensures forall n | 0 <= n < |raws| :: Chosen(raws, catalog)[n] == catalog[raws[n]]
  {
    if raws != [] {
      ChosenAll(raws[..|raws| - 1], catalog);
    }
  }

  lemma ChosenStep(raws: seq<string>, i: nat, catalog: Catalog)
    requires i < |raws|
    ensures Chosen(raws[..i + 1], catalog)
            == if raws[i] in catalog then Chosen(raws[..i], catalog) + [catalog[raws[i]]] else Chosen(raws[..i], catalog)
  {
    assert raws[..i + 1][..i] == raws[..i];
  }

  lemma ActionsStep(kernels: seq<DiscoveredKernel>, k: DiscoveredKernel, hw: HardwareProfile)
    ensures InstallActions(kernels + [k], hw)
            == if k.repo == AUR then InstallActions(kernels, hw) else InstallActions(kernels, hw) + InstallBlock(k, hw)
    ensures AurNames(kernels + [k]) == if k.repo == AUR then AurNames(kernels) + [k.name] else AurNames(kernels)
    ensures RemoveActions(kernels + [k], hw) == RemoveActions(kernels, hw) + RemoveBlock(k, hw)
  {
    assert (kernels + [k])[..|kernels|] == kernels;
  }

  lemma PackagesAppend(a: seq<PackageAction>, b: seq<PackageAction>, p: string)
    ensures p in Packages(a + b) <==> p in Packages(a) || p in Packages(b)
  {
    assert Packages(a + b) == Packages(a) + Packages(b);
  }

  /** Over a whole plan: the packages to install are exactly those that some repository kernel is
      installed with. */
  lemma {:induction false} PlanInstallsExactly(kernels: seq<DiscoveredKernel>, hw: HardwareProfile, p: string)
    ensures p in Packages(InstallActions(kernels, hw))
            <==> exists k | k in kernels :: k.repo != "aur" && InstalledWith(k, hw, p)
  {
    hide InstallBlock, InstalledWith;
    if kernels != [] {
      var n := |kernels| - 1;
      PlanInstallsExactly(kernels[..n], hw, p);
      InstallBlockExactly(kernels[n], hw, p);
      PackagesAppend(InstallActions(kernels[..n], hw), InstallBlock(kernels[n], hw), p);
      assert kernels == kernels[..n] + [kernels[n]];
      assert InstallActions(kernels, hw) == if kernels[n].repo == "aur" then InstallActions(kernels[..n], hw)
                                            else InstallActions(kernels[..n], hw) + InstallBlock(kernels[n], hw);
      hide Packages;
    }
  }

  predicate FromAur(k: DiscoveredKernel) {
    k.repo == "aur"
  }

  function NameOf(k: DiscoveredKernel): string {
    k.name
  }

  /** The names of the kernels of the repository "aur", in order. */
  lemma {:induction false} AurNamesExactly(kernels: seq<DiscoveredKernel>) returns (origin: seq<nat>)
    ensures Sifts(kernels, FromAur, NameOf, AurNames(kernels), origin)
  {
    hide Sifts;
    if kernels == [] {
      origin := [];
      SiftsNone(FromAur, NameOf);
    } else {
      var n := |kernels| - 1;
      origin := AurNamesExactly(kernels[..n]);
      assert kernels == kernels[..n] + [kernels[n]];
      var names := AurNames(kernels[..n]);
      origin := SiftsSnoc(kernels[..n], kernels[n], FromAur, NameOf, names, origin);
      assert AurNames(kernels) == if FromAur(kernels[n]) then names + [NameOf(kernels[n])] else names;
    }
  }

  predicate ForNvidia(a: PackageAction) {
    a.reason == NvidiaCompanion || a.reason == NvidiaOpenCompanion || a.reason == ExistingModuleFamily
  }

  predicate GetsFlavour(kernel: DiscoveredKernel, hw: HardwareProfile, a: PackageAction) {
    kernel.repo != AUR && Flavour(kernel, hw) == Some(a)
  }

  /** Over a whole plan: a package is installed as a prebuilt NVIDIA module exactly when it is the
      flavour of a selected repository kernel, and so never while a DKMS module is installed. */
  lemma {:induction false} PlanFlavours(kernels: seq<DiscoveredKernel>, hw: HardwareProfile, a: PackageAction)
    requires ForNvidia(a)
    ensures a in InstallActions(kernels, hw) <==> exists k | k in kernels :: GetsFlavour(k, hw, a)
    ensures a in InstallActions(kernels, hw) ==> !DkmsInstalled(hw)
  {
    hide InstallBlock, Flavour, GetsFlavour, DkmsInstalled;
    if kernels != [] {
      var n := |kernels| - 1;
      PlanFlavours(kernels[..n], hw, a);
      BlockFlavour(kernels[n], hw, a);
      assert kernels == kernels[..n] + [kernels[n]];
    }
  }

  lemma BlockFlavour(kernel: DiscoveredKernel, hw: HardwareProfile, a: PackageAction)
    requires ForNvidia(a)
    ensures GetsFlavour(kernel, hw, a) <==> kernel.repo != AUR && a in InstallBlock(kernel, hw)
    ensures GetsFlavour(kernel, hw, a) ==> !DkmsInstalled(hw)
  {
  }

  class TransactionPlan {
    var install: seq<PackageAction>
    var remove: seq<PackageAction>
    var aurInstall: seq<string>
    var aurEnabled: bool

    constructor Empty()
      ensures install == [] && remove == [] && aurInstall == [] && !aurEnabled
    {
      install, remove, aurInstall, aurEnabled := [], [], [], false;
    }

    constructor FromSelection(rows: seq<KernelRow>, hw: HardwareProfile, catalog: Catalog)
      ensures install == InstallActions(Chosen(InstallSet(rows), catalog), hw)
      ensures remove == RemoveActions(Chosen(RemovalSet(rows), catalog), hw)
      ensures aurInstall == AurNames(Chosen(InstallSet(rows), catalog))
      ensures !aurEnabled
    {
      install, remove, aurInstall, aurEnabled := [], [], [], false;
      new;
      InstallPhase(InstallSet(rows), hw, catalog);
      RemovalPhase(RemovalSet(rows), hw, catalog);
    }

    /** First loop of `from_selection`. */
    method InstallPhase(raws: seq<string>, hw: HardwareProfile, catalog: Catalog)
      requires install == [] && aurInstall == []
      modifies this
      ensures install == InstallActions(Chosen(raws, catalog), hw)
      ensures aurInstall == AurNames(Chosen(raws, catalog))
      ensures remove == old(remove) && aurEnabled == old(aurEnabled)
    {
      ghost var seen: seq<DiscoveredKernel> := [];
      hide InstallBlock;
      for i := 0 to |raws|
        invariant seen == Chosen(raws[..i], catalog)
        invariant install == InstallActions(seen, hw) && aurInstall == AurNames(seen)
        invariant remove == old(remove) && aurEnabled == old(aurEnabled)
      {
        ChosenStep(raws, i, catalog);
        if raws[i] !in catalog {
          continue;
        }
        var kernel := catalog[raws[i]];
        ActionsStep(seen, kernel, hw);
        seen := seen + [kernel];
        if kernel.repo == AUR {
          aurInstall := aurInstall + [kernel.name];
          continue;
        }
        ExpandInstall(kernel, hw);
      }
      assert raws[..|raws|] == raws;
    }

    /** Second loop of `from_selection`. */
    method RemovalPhase(raws: seq<string>, hw: HardwareProfile, catalog: Catalog)
      requires remove == []
      modifies this
      ensures remove == RemoveActions(Chosen(raws, catalog), hw)
      ensures install == old(install) && aurInstall == old(aurInstall) && aurEnabled == old(aurEnabled)
    {
      ghost var seen: seq<DiscoveredKernel> := [];
      for i := 0 to |raws|
        invariant seen == Chosen(raws[..i], catalog)
        invariant remove == RemoveActions(seen, hw)
        invariant install == old(install) && aurInstall == old(aurInstall) && aurEnabled == old(aurEnabled)
      {
        ChosenStep(raws, i, catalog);
        if raws[i] !in catalog {
          continue;
        }
        var kernel := catalog[raws[i]];
        ActionsStep(seen, kernel, hw);
        seen := seen + [kernel];
        ExpandRemove(kernel, hw);
      }
      assert raws[..|raws|] == raws;
    }

    method ExpandInstall(kernel: DiscoveredKernel, hw: HardwareProfile)
      modifies this
      ensures install == old(install) + InstallBlock(kernel, hw)
      ensures remove == old(remove) && aurInstall == old(aurInstall) && aurEnabled == old(aurEnabled)
    {
      if hw.rootOnZfs && kernel.companions.zfs.Some? {
        install := install + [PackageAction(kernel.companions.zfs.value, ZfsRootCompanion)];
      }
      var dkmsModulesNotInstalled := "nvidia-dkms" !in hw.installed && "nvidia-open-dkms" !in hw.installed;
      var shouldInstallNvidia := hw.chwdNvidia && kernel.companions.nvidia.Some?;
      var shouldInstallNvidiaOpen := hw.chwdNvidiaOpen && kernel.companions.nvidiaOpen.Some?;
      var fromModuleFamily := false;
      if hw.nvidiaOpenModulesInstalled && kernel.companions.nvidiaOpen.Some? {
        shouldInstallNvidiaOpen, shouldInstallNvidia, fromModuleFamily := true, false, true;
      } else if hw.nvidiaModulesInstalled && kernel.companions.nvidia.Some? {
        shouldInstallNvidiaOpen, shouldInstallNvidia, fromModuleFamily := false, true, true;
      }
      var reason := if fromModuleFamily then ExistingModuleFamily
                    else if shouldInstallNvidiaOpen then NvidiaOpenCompanion else NvidiaCompanion;
      if dkmsModulesNotInstalled && shouldInstallNvidiaOpen {
        install := install + [PackageAction(kernel.companions.nvidiaOpen.value, reason)];
      } else if dkmsModulesNotInstalled && shouldInstallNvidia {
        install := install + [PackageAction(kernel.companions.nvidia.value, reason)];
      }
      install := install + [PackageAction(kernel.name, SelectedKernel)];
      install := install + [PackageAction(kernel.headers, RequiredHeaders)];
    }

    method ExpandRemove(kernel: DiscoveredKernel, hw: HardwareProfile)
      modifies this
      ensures remove == old(remove) + RemoveBlock(kernel, hw)
      ensures install == old(install) && aurInstall == old(aurInstall) && aurEnabled == old(aurEnabled)
    {
      remove := remove + [PackageAction(kernel.name, SelectedKernel)];
      if kernel.headers in hw.installed {
        remove := remove + [PackageAction(kernel.headers, RemovalCompanion)];
      }
      var candidates := [kernel.companions.zfs, kernel.companions.nvidia, kernel.companions.nvidiaOpen];
      for i := 0 to |candidates|
        invariant install == old(install) && aurInstall == old(aurInstall) && aurEnabled == old(aurEnabled)
        invariant remove == old(remove) + [PackageAction(kernel.name, SelectedKernel)]
                            + IfInstalled(Some(kernel.headers), hw)
                            + (if i > 0 then IfInstalled(candidates[0], hw) else [])
                            + (if i > 1 then IfInstalled(candidates[1], hw) else [])
                            + (if i > 2 then IfInstalled(candidates[2], hw) else [])
      {
        var companion := candidates[i];
        if companion.Some? && companion.value in hw.installed {
          remove := remove + [PackageAction(companion.value, RemovalCompanion)];
        }
      }
    }
  }

  // ---------- commands ----------

  function AurDir(name: string): string {
    "~/.cache/cachyos-km/aur_pkgbuilds/" + name
  }

  function AurUrl(name: string): string {
    "https://aur.archlinux.org/" + name + ".git"
  }

  function AurCommands(names: seq<string>): seq<CommandPlan> {
    if names == [] then []
    else
      var n := |names| - 1;
      AurCommands(names[..n]) + AurPair(names[n])
  }

  function Commands(aurEnabled: bool, aurInstall: seq<string>,
                    install: seq<PackageAction>, remove: seq<PackageAction>): seq<CommandPlan> {
    (if aurEnabled then AurCommands(aurInstall) else [])
    + (if install != [] then [InstallRepoPackages(Packages(install), true)] else [])
    + (if remove != [] then [RemovePackages(Packages(remove))] else [])
  }

  method CommitCommands(plan: TransactionPlan) returns (commands: seq<CommandPlan>)
    ensures commands == Commands(plan.aurEnabled, plan.aurInstall, plan.install, plan.remove)
  {
    commands := [];
    if plan.aurEnabled {
      for i := 0 to |plan.aurInstall|
        invariant commands == AurCommands(plan.aurInstall[..i])
      {
        assert plan.aurInstall[..i + 1][..i] == plan.aurInstall[..i];
        var name := plan.aurInstall[i];
        if FindFrom(name, "headers", 0).Some? {
          continue;
        }
        var dir := "~/.cache/cachyos-km/aur_pkgbuilds/" + name;
        commands := commands + [GitRefresh("https://aur.archlinux.org/" + name + ".git", dir)];
        commands := commands + [BuildAurPackage(dir)];
      }
      assert plan.aurInstall[..|plan.aurInstall|] == plan.aurInstall;
    }
    if plan.install != [] {
      commands := commands + [InstallRepoPackages(Packages(plan.install), true)];
    }
    if plan.remove != [] {
      commands := commands + [RemovePackages(Packages(plan.remove))];
    }
  }

  /** Everything a command list asks pacman to install, and to remove, in order. */
  function AskedToInstall(commands: seq<CommandPlan>): seq<string> {
    if commands == [] then []
    else (if commands[0].InstallRepoPackages? then commands[0].packages else []) + AskedToInstall(commands[1..])
  }

  function AskedToRemove(commands: seq<CommandPlan>): seq<string> {
    if commands == [] then []
    else (if commands[0].RemovePackages? then commands[0].packages else []) + AskedToRemove(commands[1..])
  }

  lemma {:induction false} AskedAppend(a: seq<CommandPlan>, b: seq<CommandPlan>)
    ensures AskedToInstall(a + b) == AskedToInstall(a) + AskedToInstall(b)
    ensures AskedToRemove(a + b) == AskedToRemove(a) + AskedToRemove(b)
  {
    if a == [] {
      assert a + b == b;
    } else {
      assert (a + b)[1..] == a[1..] + b;
      AskedAppend(a[1..], b);
    }
  }

  predicate IsPacman(c: CommandPlan) {
    c.InstallRepoPackages? || c.RemovePackages?
  }

  /** Every AUR build directly follows the refresh of its own directory, and every refresh is
      directly followed by its build. */
  ghost predicate Paired(c: seq<CommandPlan>) {
    (forall i | 0 <= i < |c| && c[i].BuildAurPackage? :: i > 0 && c[i - 1].GitRefresh? && c[i - 1].dir == c[i].dir)
    && (forall i | 0 <= i < |c| && c[i].GitRefresh? :: i + 1 < |c| && c[i + 1] == BuildAurPackage(c[i].dir))
  }

  lemma PairedAppend(a: seq<CommandPlan>, b: seq<CommandPlan>)
    requires Paired(a) && Paired(b)
    ensures Paired(a + b)
  {
    var c := a + b;
    assert forall i | 0 <= i < |b| :: c[|a| + i] == b[i];
    forall i | 0 <= i < |c| && c[i].BuildAurPackage?
      ensures i > 0 && c[i - 1].GitRefresh? && c[i - 1].dir == c[i].dir
    {
      if i >= |a| {
        assert b[i - |a|].BuildAurPackage?;
      }
    }
    forall i | 0 <= i < |c| && c[i].GitRefresh? ensures i + 1 < |c| && c[i + 1] == BuildAurPackage(c[i].dir) {
      if i >= |a| {
        assert b[i - |a|].GitRefresh?;
      }
    }
  }

  /** The commands one AUR name turns into. */
  function AurPair(name: string): seq<CommandPlan> {
    if FindFrom(name, "headers", 0).Some? then [] else [GitRefresh(AurUrl(name), AurDir(name)), BuildAurPackage(AurDir(name))]
  }

  lemma AurPairFacts(name: string)
    ensures var c := AurPair(name); Paired(c) && AskedToInstall(c) == [] && AskedToRemove(c) == []
                                    && forall x | x in c :: !IsPacman(x)
  {
    var refresh, build := GitRefresh(AurUrl(name), AurDir(name)), BuildAurPackage(AurDir(name));
    AskedOfOne(refresh);
    AskedOfOne(build);
    AskedAppend([refresh], [build]);
    assert [refresh] + [build] == [refresh, build];
  }

  /** The AUR part is paired, asks pacman for nothing, and contains the pair of every name. */
  lemma {:induction false} AurPairs(names: seq<string>)
    ensures var c := AurCommands(names);
            && AskedToInstall(c) == [] && AskedToRemove(c) == []
            && Paired(c)
            && (forall x | x in c :: !IsPacman(x))
            && (forall name, x | name in names && x in AurPair(name) :: x in c)
            && (forall x | x in c :: exists name | name in names :: x in AurPair(name))
  {
    if names != [] {
      var n := |names| - 1;
      var head, tail := AurCommands(names[..n]), AurPair(names[n]);
      AurPairs(names[..n]);
      AurPairFacts(names[n]);
      AskedAppend(head, tail);
      PairedAppend(head, tail);
      assert AurCommands(names) == head + tail;
      forall name, x | name in names && x in AurPair(name) ensures x in head + tail {
        if name != names[n] {
          assert name in names[..n];
        }
      }
    }
  }

  /** The names that are built, in order: those without "headers" in them. */
  function Buildable(names: seq<string>): seq<string> {
    if names == [] then []
    else
      var n := |names| - 1;
      Buildable(names[..n]) + (if FindFrom(names[n], "headers", 0).Some? then [] else [names[n]])
  }

  /** The AUR commands are the refresh and the build of each such name, once per listing and in
      order, and nothing else. */
  lemma {:induction false} AurInOrder(names: seq<string>)
    ensures var c, kept := AurCommands(names), Buildable(names);
            && |c| == 2 * |kept|
            && (forall i | 0 <= i < |kept| ::
                  c[2 * i] == GitRefresh(AurUrl(kept[i]), AurDir(kept[i])) && c[2 * i + 1] == BuildAurPackage(AurDir(kept[i])))
  {
    hide FindFrom, AurUrl, AurDir;
    if names != [] {
      AurInOrder(names[..|names| - 1]);
    }
  }

  predicate NoHeaders(name: string) {
    FindFrom(name, "headers", 0).None?
  }

  lemma {:induction false} BuildableExactly(names: seq<string>) returns (origin: seq<nat>)
    ensures Sifts(names, NoHeaders, Same, Buildable(names), origin)
  {
    hide Sifts, FindFrom;
    if names == [] {
      origin := [];
      SiftsNone(NoHeaders, Same);
    } else {
      var n := |names| - 1;
      origin := BuildableExactly(names[..n]);
      assert names == names[..n] + [names[n]];
      var kept := Buildable(names[..n]);
      origin := SiftsSnoc(names[..n], names[n], NoHeaders, Same, kept, origin);
      assert Buildable(names) == if NoHeaders(names[n]) then kept + [Same(names[n])] else kept;
    }
  }

  /** The whole command list: with AUR enabled the refresh and the build of each buildable name, with
      its address and directory; then the install of the plan's packages, then their removal. */
  lemma {:induction false} CommandsExactly(
      aurEnabled: bool, aurInstall: seq<string>, install: seq<PackageAction>, remove: seq<PackageAction>)
    ensures var c, kept := Commands(aurEnabled, aurInstall, install, remove), Buildable(aurInstall);
            var n := if aurEnabled then 2 * |kept| else 0;
            && |c| == n + (if install != [] then 1 else 0) + (if remove != [] then 1 else 0)
            && (forall i | 0 <= i < |kept| && aurEnabled ::
                  var dir := "~/.cache/cachyos-km/aur_pkgbuilds/" + kept[i];
                  c[2 * i] == GitRefresh("https://aur.archlinux.org/" + kept[i] + ".git", dir) && c[2 * i + 1] == BuildAurPackage(dir))
            && (install != [] ==> c[n] == InstallRepoPackages(Packages(install), true))
            && (remove != [] ==> c[|c| - 1] == RemovePackages(Packages(remove)))
  {
    AurInOrder(aurInstall);
    hide AurCommands, Buildable, Packages, FindFrom;
  }

  lemma AskedOfOne(c: CommandPlan)
    ensures AskedToInstall([c]) == if c.InstallRepoPackages? then c.packages else []
    ensures AskedToRemove([c]) == if c.RemovePackages? then c.packages else []
  {
    assert [c][1..] == [];
  }

  /** Nothing is lost or invented between plan and commands. */
  lemma {:induction false} CommandsConserve(
      aurEnabled: bool, aurInstall: seq<string>, install: seq<PackageAction>, remove: seq<PackageAction>)
    ensures AskedToInstall(Commands(aurEnabled, aurInstall, install, remove)) == Packages(install)
    ensures AskedToRemove(Commands(aurEnabled, aurInstall, install, remove)) == Packages(remove)
  {
    AurPairs(aurInstall);
    var a := if aurEnabled then AurCommands(aurInstall) else [];
    var i := if install != [] then [InstallRepoPackages(Packages(install), true)] else [];
    var r := if remove != [] then [RemovePackages(Packages(remove))] else [];
    AskedAppend(a + i, r);
    AskedAppend(a, i);
    AskedOfOne(InstallRepoPackages(Packages(install), true));
    AskedOfOne(RemovePackages(Packages(remove)));
  }

  /** AUR builds come first, each in the directory refreshed just before it, then at most one
      install, then at most one removal. */
  lemma {:induction false} CommandsInOrder(
      aurEnabled: bool, aurInstall: seq<string>, install: seq<PackageAction>, remove: seq<PackageAction>)
    ensures var c := Commands(aurEnabled, aurInstall, install, remove);
            && (forall i, j | 0 <= i < j < |c| && IsPacman(c[i]) :: c[i].InstallRepoPackages? && c[j].RemovePackages?)
            && Paired(c)
            && (!aurEnabled ==> forall x | x in c :: IsPacman(x))
  {
    AurPairs(aurInstall);
    var a := if aurEnabled then AurCommands(aurInstall) else [];
    var i := if install != [] then [InstallRepoPackages(Packages(install), true)] else [];
    var r := if remove != [] then [RemovePackages(Packages(remove))] else [];
    hide AurCommands, AurPair, AskedToInstall, AskedToRemove, Packages;
    PairedAppend(a, i);
    PairedAppend(a + i, r);
    assert forall j | 0 <= j < |a| :: !IsPacman(a[j]);
  }
}
