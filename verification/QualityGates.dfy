/** Which quality gates a list of changed files calls for: `affected_gates` in tools/quality_gates.py. */
module QualityGates {
  import opened Affix

  datatype Gate =
    | AutomationTests | PythonTests | PythonLint | SpecValidation
    | Rel001Benchmark | PackagingContract | WebBuild | WebLint

  /** The "all" profile, in its order. */
  const PROFILE: seq<Gate> := [AutomationTests, PythonTests, PythonLint, SpecValidation,
                               Rel001Benchmark, PackagingContract, WebBuild, WebLint]

  // ---------- Paths ----------

  function Slashes(s: string): (r: string)
    ensures |r| == |s|
  {
    if s == "" then "" else [if s[0] == '\\' then '/' else s[0]] + Slashes(s[1..])
  }

  function Normal(raw: string): string {
    Slashes(if StartsWith(raw, "./") then raw[2..] else raw)
  }

  function Tool(name: string): string { "tools/" + name }

  predicate BenchmarkTool(p: string) {
    || p == Tool("go_stdlib_adapter_contract.py")
    || p == Tool("go_stdlib_platform_contract.py")
    || p == Tool("go_stdlib_toolchain.py")
    || p == Tool("installed_go_stdlib_platform_smoke.py")
    || p == Tool("installed_go_stdlib_smoke.py")
    || p == Tool("installed_python_legacy_quote_smoke.py")
    || p == Tool("installed_typescript_fastify_smoke.py")
    || p == Tool("rel001_benchmark.py")
    || p == Tool("rel001_benchmark_scenarios.py")
    || p == Tool("typescript_fastify_adapter_contract.py")
  }

  predicate PackagingTool(p: string) {
    || p == "tests/" + "generation/_fixture_factory.py"
    || p == Tool("generate_change_governance_schema.py")
    || p == Tool("generate_generation_schema.py")
    || p == Tool("generate_ratchet_v2_schema.py")
    || p == Tool("go_stdlib_adapter_contract.py")
    || p == Tool("go_stdlib_platform_contract.py")
    || p == Tool("go_stdlib_toolchain.py")
    || p == Tool("installed_go_stdlib_smoke.py")
    || p == Tool("installed_go_stdlib_platform_smoke.py")
    || p == Tool("installed_python_legacy_quote_smoke.py")
    || p == Tool("installed_typescript_fastify_smoke.py")
    || p == Tool("package_contract.py")
    || p == Tool("quality_gates.py")
    || p == Tool("release_check.py")
    || p == Tool("rel001_benchmark.py")
    || p == Tool("rel001_benchmark_scenarios.py")
    || p == Tool("typescript_fastify_adapter_contract.py")
  }

  predicate Product(p: string) { StartsWith(p, "src/ucf/") }

  predicate Tools(p: string) { StartsWith(p, "tools/") }

  predicate Web(p: string) { StartsWith(p, "web/") }

  predicate Legal(p: string) { p == "LICENSE" || p == "NOTICE" || p == "README.md" || p == "SECURITY.md" }

  predicate AdapterOrFixture(p: string) { StartsWith(p, "adapters/") || StartsWith(p, "tests/fixtures/") }

  predicate Python(p: string) { Product(p) || StartsWith(p, "tests/") || Tools(p) || EndsWith(p, ".py") }

  predicate Specs(p: string) { StartsWith(p, "specs/") || StartsWith(p, "examples/specs/") }

  predicate Build(p: string) { p == "pyproject.toml" || p == "uv.lock" }

  predicate Prose(p: string) {
    || StartsWith(p, ".github/") || StartsWith(p, ".codex/") || StartsWith(p, "docs/")
    || p == "AGENTS.md" || p == "PLANS.md" || p == "README.md"
  }

  // ---------- What each gate is for ----------

  /** No branch of the chain knows the path. */
  predicate Unknown(p: string) {
    && !Web(p) && !Legal(p) && !AdapterOrFixture(p) && !PackagingTool(p) && !Python(p)
    && !Specs(p) && !Build(p) && !Prose(p) && !EndsWith(p, ".md")
  }

  /** Whether one changed file calls for a gate, read gate by gate instead of path by path. */
  predicate Needs(p: string, gate: Gate) {
    || Unknown(p)
    || match gate
       case AutomationTests => true
       case PythonTests => !Web(p) && (AdapterOrFixture(p) || PackagingTool(p) || Python(p) || Specs(p) || Build(p))
       case PythonLint => !Web(p) && (AdapterOrFixture(p) || PackagingTool(p) || Python(p) || Build(p))
       case SpecValidation =>
         && !AdapterOrFixture(p) && !PackagingTool(p)
         && (Product(p) || Tools(p) || (Specs(p) && !Python(p)))
       case Rel001Benchmark =>
         BenchmarkTool(p) || p == "docs/benchmarks/rel001-report.json" || Product(p) || AdapterOrFixture(p) || Build(p)
       case PackagingContract => Legal(p) || AdapterOrFixture(p) || PackagingTool(p) || Product(p) || Build(p)
       case WebBuild => Web(p)
       case WebLint => Web(p)
  }

  ghost predicate Called(files: seq<string>, gate: Gate) {
    exists i :: 0 <= i < |files| && Needs(Normal(files[i]), gate)
  }

  /** `tuple(gate for gate in all_gates if gate in selected)`. */
  function Pick(profile: seq<Gate>, selected: set<Gate>): (r: seq<Gate>) {
    if profile == [] then []
    else (if profile[0] in selected then [profile[0]] else []) + Pick(profile[1..], selected)
  }

  ghost function Affected(files: seq<string>): seq<Gate> {
    Pick(PROFILE, set gate: Gate | Called(files, gate))
  }

  // ---------- Kinds of path that exclude each other ----------

  lemma StartsAt(p: string, prefix: string, k: nat)
    ensures StartsWith(p, prefix) && k < |prefix| ==> k < |p| && p[k] == prefix[k]
  {
    assert k < |prefix| <= |p| ==> p[..|prefix|][k] == p[k];
  }

  lemma EndsAt(p: string, suffix: string)
    requires suffix != ""
    ensures EndsWith(p, suffix) ==> |suffix| <= |p| && p[|p| - 1] == suffix[|suffix| - 1]
  {
    assert |suffix| <= |p| ==> p[|p| - |suffix|..][|suffix| - 1] == p[|p| - 1];
  }

  lemma ToolFiles(p: string)
    ensures PackagingTool(p) ==> p != "" && p[0] == 't'
  {
  }

  lemma BenchmarkToolsArePackaged(p: string)
    ensures BenchmarkTool(p) ==> PackagingTool(p)
  {
  }

  /** The files named one by one at the top lie in no directory of the chain. */
  lemma TopLevelNames(p: string)
    requires Build(p) || Legal(p)
    ensures !Web(p) && !AdapterOrFixture(p) && !PackagingTool(p) && !Specs(p) && !Product(p) && !Tools(p)
    ensures !Python(p) && !(Build(p) && Legal(p)) && !BenchmarkTool(p)
    ensures p != "docs/benchmarks/rel001-report.json"
  {
    hide StartsWith, EndsWith, PackagingTool, BenchmarkTool;
    StartsAt(p, "web/", 0);
    StartsAt(p, "adapters/", 0);
    StartsAt(p, "tests/", 0);
    StartsAt(p, "tests/fixtures/", 0);
    StartsAt(p, "specs/", 0);
    StartsAt(p, "examples/specs/", 0);
    StartsAt(p, "src/ucf/", 0);
    StartsAt(p, "tools/", 0);
    EndsAt(p, ".py");
    ToolFiles(p);
    BenchmarkToolsArePackaged(p);
    assert p[0] in {'p', 'u', 'L', 'N', 'R', 'S'};
    assert p[|p| - 1] in {'l', 'k', 'E', 'd'};
  }

  /** One path lies in one directory. */
  lemma TopDirectories(p: string)
    ensures Web(p) ==> !Product(p) && !Tools(p) && !AdapterOrFixture(p) && !Specs(p) && !PackagingTool(p)
    ensures Product(p) ==> !Tools(p) && !AdapterOrFixture(p) && !Specs(p) && !PackagingTool(p)
    ensures AdapterOrFixture(p) ==> !Specs(p)
  {
    hide StartsWith, PackagingTool, BenchmarkTool;
    StartsAt(p, "web/", 0);
    StartsAt(p, "src/ucf/", 0);
    StartsAt(p, "src/ucf/", 1);
    StartsAt(p, "tools/", 0);
    StartsAt(p, "adapters/", 0);
    StartsAt(p, "tests/fixtures/", 0);
    StartsAt(p, "specs/", 0);
    StartsAt(p, "specs/", 1);
    StartsAt(p, "examples/specs/", 0);
    ToolFiles(p);
  }

  predicate SelectsFor(before: set<Gate>, selected: set<Gate>, p: string) {
    forall gate: Gate :: gate in selected <==> gate in before || Needs(p, gate)
  }

  /** The inner branch that names two tools is never taken: an earlier branch takes both. */
  lemma InnerToolNames(p: string)
    ensures p == Tool("package_contract.py") || p == Tool("quality_gates.py") ==> PackagingTool(p)
  {
  }

  ghost predicate SelectedSoFar(selected: set<Gate>, files: seq<string>) {
    forall gate: Gate :: gate in selected <==> gate == AutomationTests || Called(files, gate)
  }

  lemma OneMoreFile(before: set<Gate>, selected: set<Gate>, files: seq<string>, i: nat)
    requires i < |files|
    requires SelectedSoFar(before, files[..i]) && SelectsFor(before, selected, Normal(files[i]))
    ensures SelectedSoFar(selected, files[..i + 1])
  {
    hide Needs, Normal, Called;
    assert files[..i + 1] == files[..i] + [files[i]];
    forall gate: Gate ensures Called(files[..i + 1], gate) <==> Called(files[..i], gate) || Needs(Normal(files[i]), gate) {
      CalledJoins(files[..i], [files[i]], gate);
      CalledOnce(files[i], gate);
    }
  }

  lemma NothingSelected(selected: set<Gate>)
    requires selected == {AutomationTests}
    ensures SelectedSoFar(selected, [])
  {
  }

  lemma CalledOnce(file: string, gate: Gate)
    ensures Called([file], gate) <==> Needs(Normal(file), gate)
  {
    hide Needs, Normal;
    if Needs(Normal(file), gate) { assert Needs(Normal([file][0]), gate); }
  }

  lemma {:induction false} PickMembers(profile: seq<Gate>, selected: set<Gate>)
    ensures forall gate: Gate :: gate in Pick(profile, selected) <==> gate in profile && gate in selected
  {
    if profile != [] {
      PickMembers(profile[1..], selected);
    }
  }

  lemma {:induction false} PickAll(profile: seq<Gate>, selected: set<Gate>)
    requires forall gate: Gate :: gate in profile ==> gate in selected
    ensures Pick(profile, selected) == profile
  {
    if profile != [] {
      PickAll(profile[1..], selected);
    }
  }

  lemma ProfileIsFull(gate: Gate)
    ensures gate in PROFILE
  {
    assert PROFILE[0] == AutomationTests && PROFILE[1] == PythonTests && PROFILE[2] == PythonLint
        && PROFILE[3] == SpecValidation && PROFILE[4] == Rel001Benchmark && PROFILE[5] == PackagingContract
        && PROFILE[6] == WebBuild && PROFILE[7] == WebLint;
  }

  lemma NothingChanged()
    ensures Affected([]) == []
  {
    var none := set gate: Gate | Called([], gate);
    PickMembers(PROFILE, none);
    assert |Pick(PROFILE, none)| > 0 ==> Pick(PROFILE, none)[0] in none;
  }

  /** The early return: one unknown path makes every gate run, whatever else changed. */
  lemma EverythingRuns(files: seq<string>, i: nat)
    requires i < |files| && Unknown(Normal(files[i]))
    ensures Affected(files) == PROFILE
  {
    hide Unknown, Normal;
    forall gate: Gate ensures Called(files, gate) {
      assert Needs(Normal(files[i]), gate);
    }
    PickAll(PROFILE, set gate: Gate | Called(files, gate));
  }

  lemma SelectedIsCalled(files: seq<string>, selected: set<Gate>)
    requires files != []
    requires SelectedSoFar(selected, files)
    ensures Pick(PROFILE, selected) == Affected(files)
  {
    hide Normal, Unknown;
    assert Needs(Normal(files[0]), AutomationTests);
    assert selected == set gate: Gate | Called(files, gate);
  }

  // ---------- What the selection means ----------

  method AffectedGates(changedFiles: seq<string>) returns (gates: seq<Gate>)
    ensures gates == Affected(changedFiles)
  {
    hide StartsWith, EndsWith, BenchmarkTool, PackagingTool, Normal, Affected, Legal, Build, Pick, SelectedSoFar, Called;
    if changedFiles == [] {
      NothingChanged();
      return [];
    }
    var selected: set<Gate> := {AutomationTests};
    assert SelectedSoFar(selected, changedFiles[..0]) by { NothingSelected(selected); }
    for i := 0 to |changedFiles|
      invariant AutomationTests in selected && SelectedSoFar(selected, changedFiles[..i])
    {
      var path := Normal(changedFiles[i]);
      ghost var before := selected;
      if BenchmarkTool(path) || path == "docs/benchmarks/rel001-report.json"
         || StartsWith(path, "src/ucf/") || StartsWith(path, "adapters/") || StartsWith(path, "tests/fixtures/")
         || Build(path)
      {
        selected := selected + {Rel001Benchmark};
      }
      if StartsWith(path, "web/") {
        selected := selected + {WebBuild, WebLint};
      } else if Legal(path) {
        selected := selected + {PackagingContract};
      } else if StartsWith(path, "adapters/") || StartsWith(path, "tests/fixtures/") {
        selected := selected + {PythonTests, PythonLint, PackagingContract};
      } else if PackagingTool(path) {
        selected := selected + {PythonTests, PythonLint, PackagingContract};
      } else if StartsWith(path, "src/ucf/") || StartsWith(path, "tests/") || StartsWith(path, "tools/")
                || EndsWith(path, ".py")
      {
        selected := selected + {PythonTests, PythonLint};
        if StartsWith(path, "src/ucf/") || StartsWith(path, "tools/") {
          selected := selected + {SpecValidation};
        }
        if StartsWith(path, "src/ucf/") || path == Tool("package_contract.py") || path == Tool("quality_gates.py") {
          selected := selected + {PackagingContract};
        }
      } else if StartsWith(path, "specs/") || StartsWith(path, "examples/specs/") {
        selected := selected + {PythonTests, SpecValidation};
      } else if Build(path) {
        selected := selected + {PythonTests, PythonLint, PackagingContract};
      } else if StartsWith(path, ".github/") || StartsWith(path, ".codex/") || StartsWith(path, "docs/")
                || path == "AGENTS.md" || path == "PLANS.md" || path == "README.md"
      {
      } else if EndsWith(path, ".md") {
      } else {
        assert Unknown(path);
        EverythingRuns(changedFiles, i);
        return PROFILE;
      }
      TopDirectories(path);
      if Build(path) || Legal(path) { TopLevelNames(path); }
      InnerToolNames(path);
      assert SelectsFor(before, selected, path);
      OneMoreFile(before, selected, changedFiles, i);
    }
    assert changedFiles[..|changedFiles|] == changedFiles;
    SelectedIsCalled(changedFiles, selected);
    gates := Pick(PROFILE, selected);
  }

  /** A gate runs exactly when some changed file needs it. */
  lemma RunsIffNeeded(files: seq<string>, gate: Gate)
    ensures gate in Affected(files) <==> exists i :: 0 <= i < |files| && Needs(Normal(files[i]), gate)
  {
    PickMembers(PROFILE, set g: Gate | Called(files, g));
    ProfileIsFull(gate);
  }

  /** Two change lists taken together call for the ordered union of what each calls for. */
  lemma AffectedJoins(a: seq<string>, b: seq<string>)
    ensures Affected(a + b) == Pick(PROFILE, (set gate | gate in Affected(a)) + (set gate | gate in Affected(b)))
  {
    hide Pick, Needs, Normal;
    forall gate: Gate ensures Called(a + b, gate) <==> gate in Affected(a) || gate in Affected(b) {
      CalledJoins(a, b, gate);
      RunsIffNeeded(a, gate);
      RunsIffNeeded(b, gate);
    }
    assert (set gate: Gate | Called(a + b, gate))
        == (set gate | gate in Affected(a)) + (set gate | gate in Affected(b));
  }

  lemma CalledJoins(a: seq<string>, b: seq<string>, gate: Gate)
    ensures Called(a + b, gate) <==> Called(a, gate) || Called(b, gate)
  {
    hide Needs, Normal;
    if Called(a, gate) {
      var i :| 0 <= i < |a| && Needs(Normal(a[i]), gate);
      assert (a + b)[i] == a[i];
    }
    if Called(b, gate) {
      var i :| 0 <= i < |b| && Needs(Normal(b[i]), gate);
      assert (a + b)[|a| + i] == b[i];
    }
    if Called(a + b, gate) {
      var i :| 0 <= i < |a + b| && Needs(Normal((a + b)[i]), gate);
      assert (a + b)[i] == if i < |a| then a[i] else b[i - |a|];
    }
  }

  /** More changes never drop a gate. */
  lemma AffectedMonotone(a: seq<string>, b: seq<string>, gate: Gate)
    requires forall f :: f in a ==> f in b
    requires gate in Affected(a)
    ensures gate in Affected(b)
  {
    hide Affected, Needs, Normal;
    RunsIffNeeded(a, gate);
    RunsIffNeeded(b, gate);
    var i :| 0 <= i < |a| && Needs(Normal(a[i]), gate);
    assert a[i] in a;
    var j :| 0 <= j < |b| && b[j] == a[i];
  }

  /** Only the set of changed files matters: neither order nor repetition does. */
  lemma AffectedByContents(a: seq<string>, b: seq<string>)
    requires forall f :: f in a <==> f in b
    ensures Affected(a) == Affected(b)
  {
    hide Needs, Normal, Pick;
    forall gate: Gate ensures Called(a, gate) <==> Called(b, gate) {
      RunsIffNeeded(a, gate);
      RunsIffNeeded(b, gate);
      if gate in Affected(a) { AffectedMonotone(a, b, gate); }
      if gate in Affected(b) { AffectedMonotone(b, a, gate); }
    }
    assert (set gate: Gate | Called(a, gate)) == (set gate: Gate | Called(b, gate));
  }

  /** The place of a gate in the full profile. */
  function Rank(gate: Gate): nat {
    match gate
    case AutomationTests => 0 case PythonTests => 1 case PythonLint => 2 case SpecValidation => 3
    case Rel001Benchmark => 4 case PackagingContract => 5 case WebBuild => 6 case WebLint => 7
  }

  ghost predicate InOrder(gates: seq<Gate>) {
    forall i, j :: 0 <= i < j < |gates| ==> Rank(gates[i]) < Rank(gates[j])
  }

  lemma {:induction false} PickKeepsOrder(profile: seq<Gate>, selected: set<Gate>)
    requires InOrder(profile)
    ensures InOrder(Pick(profile, selected))
  {
    if profile != [] {
      var rest := Pick(profile[1..], selected);
      PickKeepsOrder(profile[1..], selected);
      PickMembers(profile[1..], selected);
      forall i | 0 <= i < |rest| ensures Rank(profile[0]) < Rank(rest[i]) {
        assert rest[i] in profile[1..];
      }
    }
  }

  /** The result keeps the profile's order and names no gate twice, and it is empty only when nothing changed. */
  lemma AffectedIsSubsequence(files: seq<string>)
    ensures InOrder(Affected(files))
    ensures Affected(files) == [] <==> files == []
    ensures files != [] ==> Affected(files)[0] == AutomationTests
  {
    hide Needs, Normal;
    assert InOrder(PROFILE);
    PickKeepsOrder(PROFILE, set gate: Gate | Called(files, gate));
    RunsIffNeeded(files, AutomationTests);
    if files == [] {
      NothingChanged();
    } else {
      AutomationAlwaysNeeded(Normal(files[0]));
      var gates := Affected(files);
      assert exists i :: 0 <= i < |files| && Needs(Normal(files[i]), AutomationTests);
      assert AutomationTests in gates;
      var k :| 0 <= k < |gates| && gates[k] == AutomationTests;
      assert k > 0 ==> Rank(gates[0]) < Rank(gates[k]);
    }
  }

  lemma AutomationAlwaysNeeded(p: string)
    ensures Needs(p, AutomationTests)
  {
  }
}
