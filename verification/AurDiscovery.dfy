/** Discovery of AUR kernels, and the incremental loop it must agree with
    (crates/cachyos-kernel-manager-plan/src/lib.rs, tools/aur-oracle-ref/src/main.rs). */
module AurDiscovery {
  import opened Text
  import opened Sequences
  import opened KernelNames
  import opened Discovery

  datatype AurDiscoveryInput = AurDiscoveryInput(
    enabled: bool, paruAvailable: bool, awkAvailable: bool,
    repoKernels: seq<DiscoveredKernel>, paruOutput: string)

  datatype AurDiscoveryResult = AurDiscoveryResult(
    probeRun: bool, aurKernels: seq<DiscoveredKernel>, gateMessage: Option<string>)

  const GATE_MESSAGE := "Paru and/or AWK are not installed! Disabling AUR kernels support"

  /** The non-empty lines of the probe output. */
  function Lines(output: string): (r: seq<string>)
    ensures forall line | line in r :: line != "" && '\n' !in line
  {
    JoinSplit(output, '\n');
    NonEmpty(Split(output, '\n'))
  }

  function AurKernel(header: string): DiscoveredKernel {
    var name := StripAll(header, HEADERS);
    DiscoveredKernel("aur", name, header, "unknown-version", NO_COMPANIONS, "aur/" + name)
  }

  /** Line `i` brings a name that neither a repo kernel nor an earlier line has. */
  predicate IsNew(lines: seq<string>, repo: seq<DiscoveredKernel>, i: nat)
    requires i < |lines|
  {
    var name := StripAll(lines[i], HEADERS);
    (forall k | k in repo :: k.name != name) && forall j | 0 <= j < i :: StripAll(lines[j], HEADERS) != name
  }

  /** The rows of the new lines among the first `n`, in order. */
  function NewRows(lines: seq<string>, repo: seq<DiscoveredKernel>, n: nat): seq<DiscoveredKernel>
    requires n <= |lines|
  {
    if n == 0 then []
    else NewRows(lines, repo, n - 1) + (if IsNew(lines, repo, n - 1) then [AurKernel(lines[n - 1])] else [])
  }

  predicate Probes(input: AurDiscoveryInput) {
    input.enabled && input.paruAvailable && input.awkAvailable && input.repoKernels != []
  }

  function ExpectedResult(input: AurDiscoveryInput): AurDiscoveryResult {
    var lines := Lines(input.paruOutput);
    AurDiscoveryResult(
      Probes(input),
      if Probes(input) then NewRows(lines, input.repoKernels, |lines|) else [],
      if input.enabled && !(input.paruAvailable && input.awkAvailable) then Some(GATE_MESSAGE) else None)
  }

  predicate HasName(kernels: seq<DiscoveredKernel>, name: string) {
    exists k | k in kernels :: k.name == name
  }

  lemma {:induction false} NewRowsCover(lines: seq<string>, repo: seq<DiscoveredKernel>, n: nat)
    requires n <= |lines|
    ensures forall i | 0 <= i < n ::
              HasName(repo, StripAll(lines[i], HEADERS)) || HasName(NewRows(lines, repo, n), StripAll(lines[i], HEADERS))
    ensures forall k | k in NewRows(lines, repo, n) ::
              exists i :: 0 <= i < n && IsNew(lines, repo, i) && k == AurKernel(lines[i])
  {
    hide StripAll, FindFrom;
    if n > 0 {
      NewRowsCover(lines, repo, n - 1);
      var before, after := NewRows(lines, repo, n - 1), NewRows(lines, repo, n);
      var name := StripAll(lines[n - 1], HEADERS);
      forall i | 0 <= i < n
        ensures HasName(repo, StripAll(lines[i], HEADERS)) || HasName(after, StripAll(lines[i], HEADERS))
      {
        if i < n - 1 {
          assert forall k | k in before :: k in after;
        } else if IsNew(lines, repo, i) {
          assert after[|before|].name == name;
        } else if !HasName(repo, name) {
          var j :| 0 <= j < i && StripAll(lines[j], HEADERS) == name;
          assert HasName(before, StripAll(lines[j], HEADERS));
          assert forall k | k in before :: k in after;
        }
      }
      forall k | k in after ensures exists i :: 0 <= i < n && IsNew(lines, repo, i) && k == AurKernel(lines[i]) {
        if k !in before {
          assert IsNew(lines, repo, n - 1) && k == AurKernel(lines[n - 1]);
        }
      }
    }
  }

  /** The name test of either loop is the declarative one. */
  lemma {:induction false} NewIffUnnamed(lines: seq<string>, repo: seq<DiscoveredKernel>, i: nat)
    requires i < |lines|
    ensures IsNew(lines, repo, i)
            <==> !HasName(repo + NewRows(lines, repo, i), StripAll(lines[i], HEADERS))
  {
    hide StripAll, FindFrom;
    NewRowsCover(lines, repo, i);
    var rows, name := NewRows(lines, repo, i), StripAll(lines[i], HEADERS);
    if !IsNew(lines, repo, i) && !HasName(repo, name) {
      var j :| 0 <= j < i && StripAll(lines[j], HEADERS) == name;
      assert HasName(rows, StripAll(lines[j], HEADERS));
    }
  }

  method StripHeaders(header: string) returns (name: string)
    ensures name == StripAll(header, HEADERS)
  {
    name := header;
    while FindFrom(name, HEADERS, 0).Some?
      invariant StripAll(name, HEADERS) == StripAll(header, HEADERS)
      decreases |name|
    {
      var pos := FindFrom(name, HEADERS, 0).value;
      name := name[..pos] + name[pos + |HEADERS|..];
    }
  }

  method DiscoverAur(input: AurDiscoveryInput) returns (result: AurDiscoveryResult)
    ensures result == ExpectedResult(input)
  {
    hide StripAll, FindFrom, IsNew;
    if !input.enabled {
      return AurDiscoveryResult(false, [], None);
    }
    var paruInstalled := input.paruAvailable && input.awkAvailable;
    if !paruInstalled {
      return AurDiscoveryResult(false, [], Some(GATE_MESSAGE));
    }
    var aurKernels: seq<DiscoveredKernel> := [];
    if input.repoKernels == [] {
      return AurDiscoveryResult(false, aurKernels, None);
    }
    var lines := Lines(input.paruOutput);
    var names: seq<DiscoveredKernel> := [];
    for i := 0 to |lines|
      invariant |names| == i && forall j | 0 <= j < i :: names[j] == AurKernel(lines[j])
    {
      var name := StripHeaders(lines[i]);
      names := names + [DiscoveredKernel("aur", name, lines[i], "unknown-version", NO_COMPANIONS, "aur/" + name)];
    }
    for i := 0 to |names|
      invariant aurKernels == NewRows(lines, input.repoKernels, i)
    {
      NewIffUnnamed(lines, input.repoKernels, i);
      if !HasName(input.repoKernels + aurKernels, names[i].name) {
        aurKernels := aurKernels + [names[i]];
      }
    }
    return AurDiscoveryResult(true, aurKernels, None);
  }

  lemma SeenNames(repo: seq<DiscoveredKernel>, seen: seq<string>)
    requires |seen| == |repo| && forall i | 0 <= i < |repo| :: seen[i] == repo[i].name
    ensures forall name :: name in seen <==> HasName(repo + [], name)
  {
    assert repo + [] == repo;
    forall name | HasName(repo, name) ensures name in seen {
      var i :| 0 <= i < |repo| && repo[i].name == name;
      assert seen[i] == name;
    }
  }

  /** The reference loop: one pass that keeps the list of names seen so far. */
  method ReferenceDiscovery(input: AurDiscoveryInput) returns (result: AurDiscoveryResult)
    ensures result == ExpectedResult(input)
  {
    hide StripAll, FindFrom, IsNew;
    var probeRun, aurRows, gate := false, [], None;
    if input.enabled {
      var isParuInstalled := true;
      if !input.paruAvailable || !input.awkAvailable {
        gate := Some(GATE_MESSAGE);
        isParuInstalled := false;
      }
      if input.repoKernels != [] && isParuInstalled {
        probeRun := true;
        var repo := input.repoKernels;
        var seen := seq(|repo|, i requires 0 <= i < |repo| => repo[i].name);
        SeenNames(repo, seen);
        var lines := Lines(input.paruOutput);
        for i := 0 to |lines|
          invariant aurRows == NewRows(lines, repo, i)
          invariant forall name :: name in seen <==> HasName(repo + aurRows, name)
        {
          NewIffUnnamed(lines, repo, i);
          var name := StripHeaders(lines[i]);
          if name in seen {
            continue;
          }
          seen := seen + [name];
          aurRows := aurRows + [DiscoveredKernel("aur", name, lines[i], "unknown-version", NO_COMPANIONS, "aur/" + name)];
        }
      }
    }
    return AurDiscoveryResult(probeRun, aurRows, gate);
  }

  /** Each row stems from a new line, in line order. */
  lemma {:induction false} RowOrigins(lines: seq<string>, repo: seq<DiscoveredKernel>, n: nat) returns (origin: seq<nat>)
    requires n <= |lines|
    ensures |origin| == |NewRows(lines, repo, n)|
    ensures forall i | 0 <= i < |origin| ::
              origin[i] < n && IsNew(lines, repo, origin[i]) && NewRows(lines, repo, n)[i] == AurKernel(lines[origin[i]])
    ensures forall i, j | 0 <= i < j < |origin| :: origin[i] < origin[j]
  {
    hide StripAll, FindFrom, IsNew;
    if n == 0 {
      origin := [];
    } else {
      origin := RowOrigins(lines, repo, n - 1);
      if IsNew(lines, repo, n - 1) {
        origin := origin + [n - 1];
      }
    }
  }

  /** AUR rows carry fully stripped names, pairwise distinct and disjoint from the repo names, in
      the order of their first line; every probe line's name is a repo name or an AUR name. */
  lemma {:induction false} AurRowsExact(input: AurDiscoveryInput) returns (origin: seq<nat>)
    requires Probes(input)
    ensures var lines, rows := Lines(input.paruOutput), ExpectedResult(input).aurKernels;
            && |origin| == |rows|
            && (forall i | 0 <= i < |rows| :: origin[i] < |lines| && rows[i] == AurKernel(lines[origin[i]]))
            && (forall i, j | 0 <= i < |rows| && 0 <= j < origin[i] :: StripAll(lines[j], HEADERS) != rows[i].name)
            && (forall i | 0 <= i < |rows| :: Irreducible(rows[i].name, HEADERS))
            && (forall i, j | 0 <= i < j < |rows| :: origin[i] < origin[j] && rows[i].name != rows[j].name)
            && (forall i, k | 0 <= i < |rows| && k in input.repoKernels :: rows[i].name != k.name)
            && (forall line | line in lines ::
                  HasName(input.repoKernels, StripAll(line, HEADERS)) || HasName(rows, StripAll(line, HEADERS)))
  {
    var lines := Lines(input.paruOutput);
    origin := RowOrigins(lines, input.repoKernels, |lines|);
    NewRowsCover(lines, input.repoKernels, |lines|);
    var rows := NewRows(lines, input.repoKernels, |lines|);
    forall i | 0 <= i < |rows| ensures Irreducible(rows[i].name, HEADERS) {
      var _ := StripAllReduces(lines[origin[i]], HEADERS);
    }
    forall i, j | 0 <= i < |rows| && 0 <= j < origin[i] ensures StripAll(lines[j], HEADERS) != rows[i].name {
      assert IsNew(lines, input.repoKernels, origin[i]);
    }
    forall i, j | 0 <= i < j < |rows| ensures rows[i].name != rows[j].name {
      assert IsNew(lines, input.repoKernels, origin[j]);
    }
  }

  /** The probe lines are the non-empty pieces of the output, in order; so printing lines one below the
      other and reading them gives them back. */
  lemma {:induction false} LinesExactly(output: string) returns (origin: seq<nat>)
    ensures Sifts(Split(output, '\n'), NotEmpty, Same, Lines(output), origin)
  {
    origin := NonEmptyExactly(Split(output, '\n'));
  }

  lemma {:induction false} LinesRoundTrip(lines: seq<string>)
    requires lines != [] && forall line | line in lines :: line != "" && '\n' !in line
    ensures Lines(Join(lines, '\n')) == lines
  {
    SplitJoin(lines, '\n');
    NonEmptyAll(lines);
  }

  /** The gates in front of the probe, and what a row records. */
  lemma {:induction false} GatesExactly(input: AurDiscoveryInput)
    ensures var r, tools := ExpectedResult(input), input.paruAvailable && input.awkAvailable;
            && (r.probeRun <==> input.enabled && tools && input.repoKernels != [])
            && (r.gateMessage.Some? <==> input.enabled && !tools) && (!r.probeRun ==> r.aurKernels == [])
            && (r.gateMessage.Some? ==> r.gateMessage.value == "Paru and/or AWK are not installed! Disabling AUR kernels support")
            && (forall k | k in r.aurKernels ::
                  k.repo == "aur" && k.version == "unknown-version" && k.raw == "aur/" + k.name && k.companions == NO_COMPANIONS
                  && k.headers in Lines(input.paruOutput) && k.name == StripAll(k.headers, "-headers"))
  {
    hide StripAll, FindFrom, Lines;
    if Probes(input) {
      NewRowsCover(Lines(input.paruOutput), input.repoKernels, |Lines(input.paruOutput)|);
    }
  }
}
