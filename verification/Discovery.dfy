/** Kernel discovery in the sync databases
    (crates/cachyos-kernel-manager-core/src/discovery.rs). */
module Discovery {
  import opened Text
  import opened KernelNames

  datatype DbPackage = DbPackage(name: string, version: string)

  datatype SyncDb = SyncDb(name: string, packages: seq<DbPackage>)
  {
    predicate Has(name: string) {
      exists p | p in packages :: p.name == name
    }

    /** The first package of that name. */
    function ByName(name: string): (r: Option<DbPackage>)
      ensures r.Some? <==> Has(name)
      ensures r.Some? ==> r.value in packages && r.value.name == name
    {
      FirstNamed(packages, name)
    }
  }

  function FirstNamed(packages: seq<DbPackage>, name: string): (r: Option<DbPackage>)
    ensures r.Some? ==> r.value in packages && r.value.name == name
    ensures r.None? ==> forall p | p in packages :: p.name != name
  {
    if packages == [] then None
    else if packages[0].name == name then Some(packages[0])
    else FirstNamed(packages[1..], name)
  }

  datatype CompanionNames = CompanionNames(zfs: Option<string>, nvidia: Option<string>, nvidiaOpen: Option<string>)

  const NO_COMPANIONS := CompanionNames(None, None, None)

  /** The naming rules; whether the packages exist is checked separately. */
  function CompanionsFor(kernel: string): CompanionNames {
    if "linux-cachyos" <= kernel then
      CompanionNames(Some(kernel + "-zfs"), Some(kernel + "-nvidia"), Some(kernel + "-nvidia-open"))
    else if kernel == "linux" || kernel == "linux-lts" then
      var stripped := Replace(kernel, "linux", "");
      CompanionNames(None, Some("nvidia" + stripped), Some("nvidia-open" + stripped))
    else
      NO_COMPANIONS
  }

  /** The stock kernels' modules carry the kernel's suffix only. */
  lemma {:induction false} StockCompanions()
    ensures CompanionsFor("linux") == CompanionNames(None, Some("nvidia"), Some("nvidia-open"))
    ensures CompanionsFor("linux-lts") == CompanionNames(None, Some("nvidia-lts"), Some("nvidia-open-lts"))
  {
    var suffix := "-lts";
    ReplaceBehind("", LINUX, suffix, "");
    ReplaceBehind("", LINUX, "", "");
    assert "" + LINUX + suffix == "linux-lts" && "" + LINUX + "" == "linux";
    assert "" + "" + Replace(suffix, LINUX, "") == "-lts" && "" + "" + Replace("", LINUX, "") == "";
    assert "nvidia" + "-lts" == "nvidia-lts" && "nvidia-open" + "-lts" == "nvidia-open-lts";
    assert "nvidia" + "" == "nvidia" && "nvidia-open" + "" == "nvidia-open";
  }

  /** A CachyOS kernel's modules carry its whole name in front; other kernels but the stock two have
      none. */
  lemma {:induction false} OtherCompanions(kernel: string)
    ensures "linux-cachyos" <= kernel ==>
              CompanionsFor(kernel).zfs == Some(kernel + "-zfs") && CompanionsFor(kernel).nvidia == Some(kernel + "-nvidia")
              && CompanionsFor(kernel).nvidiaOpen == Some(kernel + "-nvidia-open")
    ensures !("linux-cachyos" <= kernel) && kernel != "linux" && kernel != "linux-lts" ==> CompanionsFor(kernel) == NO_COMPANIONS
  {
  }

  datatype DiscoveredKernel = DiscoveredKernel(
    repo: string, name: string, headers: string, version: string, companions: CompanionNames, raw: string)
  {
    /** Every package an expansion of this kernel can name. */
    function Packages(): set<string> {
      {name, headers} + Optional(companions.zfs) + Optional(companions.nvidia) + Optional(companions.nvidiaOpen)
    }
  }

  function Optional(o: Option<string>): set<string> {
    if o.Some? then {o.value} else {}
  }

  function Present(db: SyncDb, o: Option<string>): Option<string> {
    if o.Some? && db.Has(o.value) then o else None
  }

  function RawName(repo: string, kernel: string): string {
    repo + "/" + kernel
  }

  // ---------- which package positions yield a kernel ----------

  /** Package `p` of database `d` is a headers package whose kernel is in the same database. */
  ghost predicate Selects(dbs: seq<SyncDb>, d: nat, p: nat) {
    d < |dbs| && p < |dbs[d].packages|
    && NEEDLE.FoundIn(dbs[d].packages[p].name)
    && !IsApiHeaders(dbs[d].packages[p].name)
    && dbs[d].Has(KernelHeadersName(dbs[d].packages[p].name))
  }

  ghost function KernelAt(dbs: seq<SyncDb>, slot: (nat, nat)): DiscoveredKernel
    requires Selects(dbs, slot.0, slot.1)
  {
    var db := dbs[slot.0];
    var headers := db.packages[slot.1].name;
    var name := KernelHeadersName(headers);
    var c := CompanionsFor(name);
    DiscoveredKernel(db.name, name, headers, db.ByName(name).value.version,
                     CompanionNames(Present(db, c.zfs), Present(db, c.nvidia), Present(db, c.nvidiaOpen)),
                     RawName(db.name, name))
  }

  /** The selecting positions in databases before `d` and among the first `p` packages of `d`. */
  ghost function Slots(dbs: seq<SyncDb>, d: nat, p: nat): (r: seq<(nat, nat)>)
    requires d <= |dbs| && p <= (if d < |dbs| then |dbs[d].packages| else 0)
    ensures forall s | s in r :: Selects(dbs, s.0, s.1)
    decreases d, p
  {
    if p > 0 then Slots(dbs, d, p - 1) + (if Selects(dbs, d, p - 1) then [(d, p - 1)] else [])
    else if d > 0 then Slots(dbs, d - 1, |dbs[d - 1].packages|)
    else []
  }

  ghost function KernelsAt(dbs: seq<SyncDb>, slots: seq<(nat, nat)>): seq<DiscoveredKernel>
    requires forall s | s in slots :: Selects(dbs, s.0, s.1)
  {
    seq(|slots|, i requires 0 <= i < |slots| => assert slots[i] in slots; KernelAt(dbs, slots[i]))
  }

  ghost function Discovered(dbs: seq<SyncDb>): seq<DiscoveredKernel> {
    KernelsAt(dbs, Slots(dbs, |dbs|, 0))
  }

  method DiscoverKernels(dbs: seq<SyncDb>) returns (out: seq<DiscoveredKernel>)
    ensures out == Discovered(dbs)
  {
    out := [];
    for d := 0 to |dbs|
      invariant out == KernelsAt(dbs, Slots(dbs, d, 0))
    {
      var db := dbs[d];
      for p := 0 to |db.packages|
        invariant out == KernelsAt(dbs, Slots(dbs, d, p))
      {
        var headers := db.packages[p].name;
        var matched := MatchesHeadersNeedle(headers);
        if !matched || IsApiHeaders(headers) {
          continue;
        }
        var kernelName := KernelHeadersName(headers);
        var kernelPkg := db.ByName(kernelName);
        if kernelPkg.None? {
          continue;
        }
        var names := CompanionsFor(kernelName);
        var companions := CompanionNames(Present(db, names.zfs), Present(db, names.nvidia), Present(db, names.nvidiaOpen));
        out := out + [DiscoveredKernel(db.name, kernelName, headers, kernelPkg.value.version, companions,
                                       db.name + "/" + kernelName)];
        assert Slots(dbs, d, p + 1) == Slots(dbs, d, p) + [(d, p)];
      }
    }
  }

  // ---------- what discovery returns ----------

  predicate Earlier(a: (nat, nat), b: (nat, nat)) {
    a.0 < b.0 || (a.0 == b.0 && a.1 < b.1)
  }

  lemma {:induction false} SlotsExact(dbs: seq<SyncDb>, d: nat, p: nat)
    requires d <= |dbs| && p <= (if d < |dbs| then |dbs[d].packages| else 0)
    ensures var r := Slots(dbs, d, p);
            && (forall i, j | 0 <= i < j < |r| :: Earlier(r[i], r[j]))
            && (forall s | s in r :: Earlier(s, (d, p)))
            && (forall s: (nat, nat) :: Selects(dbs, s.0, s.1) && Earlier(s, (d, p)) ==> s in r)
    decreases d, p
  {
    if p > 0 {
      SlotsExact(dbs, d, p - 1);
    } else if d > 0 {
      SlotsExact(dbs, d - 1, |dbs[d - 1].packages|);
    }
  }

  /** Discovery lists exactly the selecting positions, each once, in database and package order. */
  lemma {:induction false} DiscoveryExact(dbs: seq<SyncDb>) returns (slots: seq<(nat, nat)>)
    ensures |slots| == |Discovered(dbs)|
    ensures forall i | 0 <= i < |slots| ::
              Selects(dbs, slots[i].0, slots[i].1) && Discovered(dbs)[i] == KernelAt(dbs, slots[i])
    ensures forall i, j | 0 <= i < j < |slots| :: Earlier(slots[i], slots[j])
    ensures forall d: nat, p: nat :: Selects(dbs, d, p) ==> (d, p) in slots
  {
    slots := Slots(dbs, |dbs|, 0);
    SlotsExact(dbs, |dbs|, 0);
    forall d: nat, p: nat | Selects(dbs, d, p) ensures (d, p) in slots {
      assert Selects(dbs, (d, p).0, (d, p).1);
    }
  }

  /** Which packages yield a kernel: those the expression finds, not of the API headers, whose name
      without "-headers" is another package of the same database. */
  lemma {:induction false} SelectsExactly(dbs: seq<SyncDb>, d: nat, p: nat)
    requires d < |dbs| && p < |dbs[d].packages|
    ensures var name := dbs[d].packages[p].name;
            Selects(dbs, d, p)
            <==> NEEDLE.FoundIn(name) && !Contains(name, "linux-api-headers")
                 && exists q | q in dbs[d].packages :: q.name == Replace(name, "-headers", "")
  {
    ApiHeadersExactly(dbs[d].packages[p].name);
    hide Regex.FoundIn, IsApiHeaders, Contains, Replace;
  }

  /** The first package of a name in a database. */
  predicate FirstPackage(db: SyncDb, j: nat, name: string) {
    j < |db.packages| && db.packages[j].name == name && forall i | 0 <= i < j :: db.packages[i].name != name
  }

  lemma {:induction false} ByNameIsFirst(packages: seq<DbPackage>, name: string) returns (j: nat)
    requires FirstNamed(packages, name).Some?
    ensures j < |packages| && packages[j] == FirstNamed(packages, name).value
    ensures forall i | 0 <= i < j :: packages[i].name != name
  {
    if packages[0].name == name {
      j := 0;
    } else {
      j := ByNameIsFirst(packages[1..], name);
      j := j + 1;
    }
  }

  /** What is recorded of a discovered kernel: the version is that of the kernel's first package, and a
      module is recorded exactly when its name is right and the same database has it. */
  lemma {:induction false} RecordExactly(dbs: seq<SyncDb>, slot: (nat, nat)) returns (j: nat)
    requires Selects(dbs, slot.0, slot.1)
    ensures var db, k := dbs[slot.0], KernelAt(dbs, slot);
            && k.repo == db.name && k.headers == db.packages[slot.1].name && k.name == KernelHeadersName(k.headers)
            && k.raw == db.name + "/" + k.name
            && FirstPackage(db, j, k.name) && k.version == db.packages[j].version
    ensures var db, k := dbs[slot.0], KernelAt(dbs, slot);
            var cachyos := "linux-cachyos" <= k.name;
            && (forall m :: k.companions.zfs == Some(m) <==> cachyos && m == k.name + "-zfs" && db.Has(m))
            && (forall m :: k.companions.nvidia == Some(m) <==>
                  db.Has(m) && ((cachyos && m == k.name + "-nvidia") || (k.name == "linux" && m == "nvidia")
                                || (k.name == "linux-lts" && m == "nvidia-lts")))
            && (forall m :: k.companions.nvidiaOpen == Some(m) <==>
                  db.Has(m) && ((cachyos && m == k.name + "-nvidia-open") || (k.name == "linux" && m == "nvidia-open")
                                || (k.name == "linux-lts" && m == "nvidia-open-lts")))
  {
    var k := KernelAt(dbs, slot);
    j := ByNameIsFirst(dbs[slot.0].packages, k.name);
    StockCompanions();
    OtherCompanions(k.name);
    hide CompanionsFor, KernelHeadersName, SyncDb.Has, FirstNamed, Regex.FoundIn, IsApiHeaders;
  }

  lemma PackagesAt(dbs: seq<SyncDb>, slot: (nat, nat), name: string)
    requires Selects(dbs, slot.0, slot.1)
    requires name in KernelAt(dbs, slot).Packages()
    ensures dbs[slot.0].Has(name)
  {
    var db := dbs[slot.0];
    var k := KernelAt(dbs, slot);
    assert db.packages[slot.1] in db.packages;
    if name == k.headers {
      assert db.packages[slot.1].name == name;
    }
  }

  /** A discovered kernel's packages all stand in the database it was discovered in. */
  lemma {:induction false} DiscoveredPackagesExist(dbs: seq<SyncDb>, k: DiscoveredKernel) returns (db: SyncDb)
    requires k in Discovered(dbs)
    ensures db in dbs && db.name == k.repo && k.raw == RawName(k.repo, k.name)
    ensures forall name | name in k.Packages() :: db.Has(name)
  {
    var slots := DiscoveryExact(dbs);
    var i :| 0 <= i < |Discovered(dbs)| && Discovered(dbs)[i] == k;
    var slot := slots[i];
    assert k == KernelAt(dbs, slot);
    db := dbs[slot.0];
    forall name | name in k.Packages() ensures db.Has(name) {
      PackagesAt(dbs, slot, name);
    }
  }
}
