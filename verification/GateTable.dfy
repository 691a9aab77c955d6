/** The gates of one changed file, directory by directory, with every prefix and name written out. */
module GateTable {
  import opened Affix
  import opened QualityGates

  /** A leading "./" is dropped, and backslashes are slashes. */
  lemma NormalMeans(raw: string)
    ensures var p := Normal(raw);
      var drop := if |raw| >= 2 && raw[0] == '.' && raw[1] == '/' then 2 else 0;
      |p| == |raw| - drop && forall i :: 0 <= i < |p| ==> p[i] == if raw[drop + i] == '\\' then '/' else raw[drop + i]
  {
    var dropped := StartsWith(raw, "./");
    if |raw| >= 2 { assert raw[..2][0] == raw[0] && raw[..2][1] == raw[1]; }
    if |raw| >= 2 && raw[0] == '.' && raw[1] == '/' { assert raw[..2] == "./"; }
    SlashesMeans(if dropped then raw[2..] else raw);
  }

  lemma {:induction false} SlashesMeans(s: string)
    ensures forall i :: 0 <= i < |s| ==> Slashes(s)[i] == if s[i] == '\\' then '/' else s[i]
  {
    if s != "" { SlashesMeans(s[1..]); }
  }

  function One(gate: Gate, selected: set<Gate>): seq<Gate> { if gate in selected then [gate] else [] }

  lemma PickEach(s: set<Gate>)
    ensures Pick(PROFILE, s) ==
            One(AutomationTests, s) + (One(PythonTests, s) + (One(PythonLint, s) + (One(SpecValidation, s) +
            (One(Rel001Benchmark, s) + (One(PackagingContract, s) + (One(WebBuild, s) + One(WebLint, s)))))))
  {
    hide Pick, One;
    PickFirst(AutomationTests, [PythonTests, PythonLint, SpecValidation, Rel001Benchmark, PackagingContract, WebBuild, WebLint], s);
    PickFirst(PythonTests, [PythonLint, SpecValidation, Rel001Benchmark, PackagingContract, WebBuild, WebLint], s);
    PickFirst(PythonLint, [SpecValidation, Rel001Benchmark, PackagingContract, WebBuild, WebLint], s);
    PickFirst(SpecValidation, [Rel001Benchmark, PackagingContract, WebBuild, WebLint], s);
    PickFirst(Rel001Benchmark, [PackagingContract, WebBuild, WebLint], s);
    PickFirst(PackagingContract, [WebBuild, WebLint], s);
    PickFirst(WebBuild, [WebLint], s);
    PickFirst(WebLint, [], s);
    PickNone(s);
    assert One(WebLint, s) + [] == One(WebLint, s);
    assert [AutomationTests] + [PythonTests, PythonLint, SpecValidation, Rel001Benchmark, PackagingContract, WebBuild, WebLint] == [AutomationTests, PythonTests, PythonLint, SpecValidation, Rel001Benchmark, PackagingContract, WebBuild, WebLint];
    assert [PythonTests] + [PythonLint, SpecValidation, Rel001Benchmark, PackagingContract, WebBuild, WebLint] == [PythonTests, PythonLint, SpecValidation, Rel001Benchmark, PackagingContract, WebBuild, WebLint];
    assert [PythonLint] + [SpecValidation, Rel001Benchmark, PackagingContract, WebBuild, WebLint] == [PythonLint, SpecValidation, Rel001Benchmark, PackagingContract, WebBuild, WebLint];
    assert [SpecValidation] + [Rel001Benchmark, PackagingContract, WebBuild, WebLint] == [SpecValidation, Rel001Benchmark, PackagingContract, WebBuild, WebLint];
    assert [Rel001Benchmark] + [PackagingContract, WebBuild, WebLint] == [Rel001Benchmark, PackagingContract, WebBuild, WebLint];
    assert [PackagingContract] + [WebBuild, WebLint] == [PackagingContract, WebBuild, WebLint];
    assert [WebBuild] + [WebLint] == [WebBuild, WebLint];
    assert [WebLint] + [] == [WebLint];
  }

  lemma PickFirst(gate: Gate, rest: seq<Gate>, selected: set<Gate>)
    ensures Pick([gate] + rest, selected) == One(gate, selected) + Pick(rest, selected)
  {
    assert ([gate] + rest)[1..] == rest;
  }

  lemma PickNone(selected: set<Gate>)
    ensures Pick([], selected) == []
  {
  }

  predicate NeedsJust(p: string, gates: set<Gate>) { forall gate: Gate :: Needs(p, gate) <==> gate in gates }

  lemma OneFile(raw: string, gates: set<Gate>)
    requires NeedsJust(Normal(raw), gates)
    ensures Affected([raw]) == Pick(PROFILE, gates)
  {
    hide Needs, Normal, Pick, Called;
    forall gate: Gate ensures Called([raw], gate) <==> gate in gates { CalledOnce(raw, gate); }
    assert (set gate: Gate | Called([raw], gate)) == gates;
  }

  lemma WebFile(raw: string)
    requires var p := Normal(raw); |p| >= 4 && p[..4] == "web/"
    ensures Affected([raw]) == [AutomationTests, WebBuild, WebLint]
  {
    hide Normal, PackagingTool, BenchmarkTool, Affected, Pick;
    var p := Normal(raw);
    assert Web(p);
    Exclusions(p);
    OneFile(raw, {AutomationTests, WebBuild, WebLint});
    PickEach({AutomationTests, WebBuild, WebLint});
  }

  /** What the branches know of each other, and of the report. */
  lemma Exclusions(p: string)
    ensures Web(p) ==> !Product(p) && !Tools(p) && !AdapterOrFixture(p) && !Specs(p) && !PackagingTool(p)
    ensures Product(p) ==> !Tools(p) && !AdapterOrFixture(p) && !Specs(p) && !PackagingTool(p)
    ensures AdapterOrFixture(p) ==> !Specs(p)
    ensures Build(p) || Legal(p) ==> !Web(p) && !AdapterOrFixture(p) && !PackagingTool(p) && !Specs(p) && !Python(p)
    ensures !(Build(p) && Legal(p)) && (BenchmarkTool(p) ==> PackagingTool(p))
    ensures p == "docs/benchmarks/rel001-report.json" ==>
              !Web(p) && !Legal(p) && !AdapterOrFixture(p) && !PackagingTool(p) && !Python(p) && !Specs(p) && !Build(p) && Prose(p)
  {
    hide PackagingTool, BenchmarkTool, Legal, Web, AdapterOrFixture, Product, Tools, Specs, Build;
    TopDirectories(p);
    if Build(p) || Legal(p) { TopLevelNames(p); }
    BenchmarkToolsArePackaged(p);
    if p == "docs/benchmarks/rel001-report.json" { Report(p); }
  }

  lemma InDocs(p: string)
    requires p == "docs/benchmarks/rel001-report.json"
    ensures StartsWith(p, "docs/")
  {
    assert p[..5] == "docs/";
  }

  lemma Report(p: string)
    requires p == "docs/benchmarks/rel001-report.json"
    ensures !Web(p) && !Legal(p) && !AdapterOrFixture(p) && !PackagingTool(p) && !Python(p) && !Specs(p) && !Build(p) && Prose(p)
  {
    hide PackagingTool, StartsWith, EndsWith;
    StartsAt(p, "web/", 0);
    StartsAt(p, "adapters/", 0);
    StartsAt(p, "tests/", 0);
    StartsAt(p, "tests/fixtures/", 0);
    StartsAt(p, "src/ucf/", 0);
    StartsAt(p, "tools/", 0);
    StartsAt(p, "specs/", 0);
    StartsAt(p, "examples/specs/", 0);
    ToolFiles(p);
    assert p[|p| - 1] == 'n';
    EndsAt(p, ".py");
    InDocs(p);
  }

  lemma LegalFile(raw: string)
    requires Normal(raw) in ["LICENSE", "NOTICE", "README.md", "SECURITY.md"]
    ensures Affected([raw]) == [AutomationTests, PackagingContract]
  {
    hide Normal, PackagingTool, BenchmarkTool, Affected, Pick, StartsWith, EndsWith;
    var p := Normal(raw);
    assert Legal(p);
    Exclusions(p);
    OneFile(raw, {AutomationTests, PackagingContract});
    PickEach({AutomationTests, PackagingContract});
  }

  lemma AdapterFile(raw: string)
    requires var p := Normal(raw);
             || (|p| >= 9 && p[..9] == "adapters/")
             || (|p| >= 15 && p[..15] == "tests/fixtures/")
    ensures Affected([raw]) == [AutomationTests, PythonTests, PythonLint, Rel001Benchmark, PackagingContract]
  {
    hide Normal, PackagingTool, BenchmarkTool, Affected, Pick;
    var p := Normal(raw);
    assert AdapterOrFixture(p);
    StartsAt(p, "adapters/", 0);
    StartsAt(p, "tests/fixtures/", 0);
    StartsAt(p, "web/", 0);
    Exclusions(p);
    OneFile(raw, {AutomationTests, PythonTests, PythonLint, Rel001Benchmark, PackagingContract});
    PickEach({AutomationTests, PythonTests, PythonLint, Rel001Benchmark, PackagingContract});
  }

  lemma ProductFile(raw: string)
    requires var p := Normal(raw); |p| >= 8 && p[..8] == "src/ucf/"
    ensures Affected([raw]) == [AutomationTests, PythonTests, PythonLint, SpecValidation, Rel001Benchmark, PackagingContract]
  {
    hide Normal, PackagingTool, BenchmarkTool, Affected, Pick;
    var p := Normal(raw);
    assert Product(p);
    Exclusions(p);
    OneFile(raw, {AutomationTests, PythonTests, PythonLint, SpecValidation, Rel001Benchmark, PackagingContract});
    PickEach({AutomationTests, PythonTests, PythonLint, SpecValidation, Rel001Benchmark, PackagingContract});
  }

  lemma BuildFile(raw: string)
    requires Normal(raw) == "pyproject.toml" || Normal(raw) == "uv.lock"
    ensures Affected([raw]) == [AutomationTests, PythonTests, PythonLint, Rel001Benchmark, PackagingContract]
  {
    hide Normal, PackagingTool, BenchmarkTool, Affected, Pick, StartsWith, EndsWith;
    var p := Normal(raw);
    assert Build(p);
    Exclusions(p);
    OneFile(raw, {AutomationTests, PythonTests, PythonLint, Rel001Benchmark, PackagingContract});
    PickEach({AutomationTests, PythonTests, PythonLint, Rel001Benchmark, PackagingContract});
  }

  predicate BenchmarkPath(p: string) {
    || p == "tools/" + "go_stdlib_adapter_contract.py"
    || p == "tools/" + "go_stdlib_platform_contract.py"
    || p == "tools/" + "go_stdlib_toolchain.py"
    || p == "tools/" + "installed_go_stdlib_platform_smoke.py"
    || p == "tools/" + "installed_go_stdlib_smoke.py"
    || p == "tools/" + "installed_python_legacy_quote_smoke.py"
    || p == "tools/" + "installed_typescript_fastify_smoke.py"
    || p == "tools/" + "rel001_benchmark.py"
    || p == "tools/" + "rel001_benchmark_scenarios.py"
    || p == "tools/" + "typescript_fastify_adapter_contract.py"
  }

  predicate PackagingPath(p: string) {
    || p == "tools/" + "generate_change_governance_schema.py"
    || p == "tools/" + "generate_generation_schema.py"
    || p == "tools/" + "generate_ratchet_v2_schema.py"
    || p == "tools/" + "package_contract.py"
    || p == "tools/" + "quality_gates.py"
    || p == "tools/" + "release_check.py"
    || p == "tests/" + "generation/_fixture_factory.py"
  }

  lemma BenchmarkPaths(p: string)
    ensures BenchmarkTool(p) <==> BenchmarkPath(p)
  {
  }

  lemma PackagingPaths(p: string)
    ensures PackagingTool(p) <==> BenchmarkPath(p) || PackagingPath(p)
  {
  }

  lemma ToolsOnly(p: string)
    requires Tools(p)
    ensures !Web(p) && !AdapterOrFixture(p) && !Legal(p) && !Build(p) && !Product(p) && !Specs(p)
    ensures p != "docs/benchmarks/rel001-report.json"
  {
    hide StartsWith, EndsWith, PackagingTool, BenchmarkTool, Legal, Build;
    StartsAt(p, "tools/", 0);
    StartsAt(p, "tools/", 1);
    StartsAt(p, "web/", 0);
    StartsAt(p, "adapters/", 0);
    StartsAt(p, "tests/fixtures/", 1);
    StartsAt(p, "src/ucf/", 0);
    StartsAt(p, "specs/", 0);
    StartsAt(p, "examples/specs/", 0);
    Exclusions(p);
  }

  lemma TestsOnly(p: string)
    requires StartsWith(p, "tests/")
    ensures !Web(p) && !Tools(p) && !Legal(p) && !Build(p) && !Product(p) && !Specs(p) && Python(p)
    ensures p != "docs/benchmarks/rel001-report.json" && !StartsWith(p, "adapters/")
  {
    hide StartsWith, EndsWith, PackagingTool, BenchmarkTool, Legal, Build;
    StartsAt(p, "tests/", 0);
    StartsAt(p, "tests/", 1);
    StartsAt(p, "web/", 0);
    StartsAt(p, "adapters/", 0);
    StartsAt(p, "tools/", 1);
    StartsAt(p, "src/ucf/", 0);
    StartsAt(p, "specs/", 0);
    StartsAt(p, "examples/specs/", 0);
    Exclusions(p);
  }

  lemma BenchmarkToolIsTool(p: string)
    requires BenchmarkTool(p)
    ensures Tools(p)
  {
  }

  lemma LeadsOwn(prefix: string, x: string)
    ensures StartsWith(prefix + x, prefix)
  {
  }

  lemma PackagingToolIsToolOrTest(p: string)
    requires PackagingTool(p)
    ensures Tools(p) || (StartsWith(p, "tests/") && !StartsWith(p, "tests/fixtures/"))
  {
    hide PackagingTool, StartsWith;
    if p == "tests/" + "generation/_fixture_factory.py" { FactoryIsTest(p); } else { PackagingToolIsTool(p); }
  }

  lemma PackagingToolIsTool(p: string)
    requires PackagingTool(p) && p != "tests/" + "generation/_fixture_factory.py"
    ensures Tools(p)
  {
    hide StartsWith;
    assert |p| >= 6 && p[..6] == "tools/" by {
      forall x ensures |Tool(x)| >= 6 && Tool(x)[..6] == "tools/" {}
      hide Tool;
    }
    SliceLeads(p);
  }

  lemma SliceLeads(p: string)
    requires |p| >= 6 && p[..6] == "tools/"
    ensures Tools(p)
  {
  }

  lemma FactoryIsTest(p: string)
    requires p == "tests/" + "generation/_fixture_factory.py"
    ensures StartsWith(p, "tests/") && !StartsWith(p, "tests/fixtures/")
  {
    LeadsOwn("tests/", "generation/_fixture_factory.py");
    assert p[6] == 'g';
    StartsAt(p, "tests/fixtures/", 6);
  }

  lemma BenchmarkToolFile(raw: string)
    requires BenchmarkPath(Normal(raw))
    ensures Affected([raw]) == [AutomationTests, PythonTests, PythonLint, Rel001Benchmark, PackagingContract]
  {
    hide Normal, PackagingTool, BenchmarkTool, Affected, Pick, BenchmarkPath, PackagingPath, StartsWith, EndsWith, Legal, Build;
    var p := Normal(raw);
    BenchmarkPaths(p);
    PackagingPaths(p);
    BenchmarkToolIsTool(p);
    ToolsOnly(p);
    Exclusions(p);
    OneFile(raw, {AutomationTests, PythonTests, PythonLint, Rel001Benchmark, PackagingContract});
    PickEach({AutomationTests, PythonTests, PythonLint, Rel001Benchmark, PackagingContract});
  }

  lemma PackagingToolFile(raw: string)
    requires PackagingPath(Normal(raw)) && !BenchmarkPath(Normal(raw))
    ensures Affected([raw]) == [AutomationTests, PythonTests, PythonLint, PackagingContract]
  {
    hide Normal, PackagingTool, BenchmarkTool, Affected, Pick, BenchmarkPath, PackagingPath, StartsWith, EndsWith, Legal, Build;
    var p := Normal(raw);
    BenchmarkPaths(p);
    PackagingPaths(p);
    PackagingToolIsToolOrTest(p);
    if Tools(p) { ToolsOnly(p); } else { TestsOnly(p); }
    Exclusions(p);
    OneFile(raw, {AutomationTests, PythonTests, PythonLint, PackagingContract});
    PickEach({AutomationTests, PythonTests, PythonLint, PackagingContract});
  }

  lemma OtherToolFile(raw: string)
    requires var p := Normal(raw); |p| >= 6 && p[..6] == "tools/" && !BenchmarkPath(p) && !PackagingPath(p)
    ensures Affected([raw]) == [AutomationTests, PythonTests, PythonLint, SpecValidation]
  {
    hide Normal, PackagingTool, BenchmarkTool, Affected, Pick, BenchmarkPath, PackagingPath, EndsWith, Legal, Build;
    var p := Normal(raw);
    BenchmarkPaths(p);
    PackagingPaths(p);
    assert StartsWith(p, "tools/");
    ToolsOnly(p);
    Exclusions(p);
    OneFile(raw, {AutomationTests, PythonTests, PythonLint, SpecValidation});
    PickEach({AutomationTests, PythonTests, PythonLint, SpecValidation});
  }

  lemma OtherTestFile(raw: string)
    requires var p := Normal(raw); |p| >= 6 && p[..6] == "tests/" && !BenchmarkPath(p) && !PackagingPath(p)
    requires var p := Normal(raw); !(|p| >= 15 && p[..15] == "tests/fixtures/")
    ensures Affected([raw]) == [AutomationTests, PythonTests, PythonLint]
  {
    hide Normal, PackagingTool, BenchmarkTool, Affected, Pick, BenchmarkPath, PackagingPath, EndsWith, Legal, Build;
    var p := Normal(raw);
    BenchmarkPaths(p);
    PackagingPaths(p);
    assert StartsWith(p, "tests/") && !StartsWith(p, "tests/fixtures/");
    TestsOnly(p);
    Exclusions(p);
    OneFile(raw, {AutomationTests, PythonTests, PythonLint});
    PickEach({AutomationTests, PythonTests, PythonLint});
  }

  /** In none of the directories of code. */
  predicate NoCode(p: string) {
    && !(|p| >= 4 && p[..4] == "web/")
    && !(|p| >= 9 && p[..9] == "adapters/")
    && !(|p| >= 8 && p[..8] == "src/ucf/")
    && !(|p| >= 6 && p[..6] == "tools/")
    && !(|p| >= 6 && p[..6] == "tests/")
  }

  predicate InSpecs(p: string) { (|p| >= 6 && p[..6] == "specs/") || (|p| >= 15 && p[..15] == "examples/specs/") }

  predicate PythonEnding(p: string) { |p| >= 3 && p[|p| - 3..] == ".py" }

  predicate Proselike(p: string) {
    || p == "AGENTS.md" || p == "PLANS.md" || (|p| >= 3 && p[|p| - 3..] == ".md")
    || (|p| >= 8 && p[..8] == ".github/")
    || (|p| >= 7 && p[..7] == ".codex/")
    || (|p| >= 5 && p[..5] == "docs/")
  }

  predicate NamedAlone(p: string) {
    || p == "LICENSE" || p == "NOTICE" || p == "README.md" || p == "SECURITY.md"
    || p == "pyproject.toml" || p == "uv.lock" || p == "docs/benchmarks/rel001-report.json"
  }

  lemma NoCodeMeans(p: string)
    ensures NoCode(p) <==> !Web(p) && !StartsWith(p, "adapters/") && !Product(p) && !Tools(p) && !StartsWith(p, "tests/")
    ensures NoCode(p) ==> !AdapterOrFixture(p) && !PackagingTool(p) && !BenchmarkTool(p)
    ensures InSpecs(p) <==> Specs(p)
  {
    hide BenchmarkTool, PackagingTool;
    if BenchmarkTool(p) { BenchmarkToolIsTool(p); }
    if PackagingTool(p) { PackagingToolIsToolOrTest(p); }
    if StartsWith(p, "tests/fixtures/") { assert p[..6] == p[..15][..6] == "tests/"; }
  }

  lemma PythonFile(raw: string)
    requires var p := Normal(raw); NoCode(p) && PythonEnding(p)
    ensures Affected([raw]) == [AutomationTests, PythonTests, PythonLint]
  {
    hide Normal, PackagingTool, BenchmarkTool, Affected, Pick, BenchmarkPath, PackagingPath, StartsWith, NoCode, InSpecs;
    var p := Normal(raw);
    NoCodeMeans(p);
    assert EndsWith(p, ".py");
    Exclusions(p);
    OneFile(raw, {AutomationTests, PythonTests, PythonLint});
    PickEach({AutomationTests, PythonTests, PythonLint});
  }

  lemma SpecFile(raw: string)
    requires var p := Normal(raw); NoCode(p) && InSpecs(p) && !PythonEnding(p)
    ensures Affected([raw]) == [AutomationTests, PythonTests, SpecValidation]
  {
    hide Normal, PackagingTool, BenchmarkTool, Affected, Pick, BenchmarkPath, PackagingPath, StartsWith, NoCode, InSpecs;
    var p := Normal(raw);
    NoCodeMeans(p);
    assert !EndsWith(p, ".py");
    if p == "docs/benchmarks/rel001-report.json" { Report(p); }
    Exclusions(p);
    OneFile(raw, {AutomationTests, PythonTests, SpecValidation});
    PickEach({AutomationTests, PythonTests, SpecValidation});
  }

  lemma ReportFile(raw: string)
    requires Normal(raw) == "docs/benchmarks/rel001-report.json"
    ensures Affected([raw]) == [AutomationTests, Rel001Benchmark]
  {
    hide Normal, PackagingTool, BenchmarkTool, Affected, Pick, BenchmarkPath, PackagingPath, StartsWith, NoCode, InSpecs;
    var p := Normal(raw);
    Exclusions(p);
    OneFile(raw, {AutomationTests, Rel001Benchmark});
    PickEach({AutomationTests, Rel001Benchmark});
  }

  lemma ProseFile(raw: string)
    requires var p := Normal(raw); NoCode(p) && !InSpecs(p) && !PythonEnding(p) && !NamedAlone(p) && Proselike(p)
    ensures Affected([raw]) == [AutomationTests]
  {
    hide Normal, PackagingTool, BenchmarkTool, Affected, Pick, BenchmarkPath, PackagingPath, StartsWith, NoCode, InSpecs;
    var p := Normal(raw);
    NoCodeMeans(p);
    assert !EndsWith(p, ".py");
    ProseMeans(p);
    Exclusions(p);
    OneFile(raw, {AutomationTests});
    PickEach({AutomationTests});
  }

  lemma ProseMeans(p: string)
    ensures Proselike(p) || p == "README.md" <==> Prose(p) || EndsWith(p, ".md")
  {
  }

  /** Any other file among the changed ones. */
  lemma UnknownFile(files: seq<string>, i: nat)
    requires i < |files|
    requires var p := Normal(files[i]); NoCode(p) && !InSpecs(p) && !PythonEnding(p) && !NamedAlone(p) && !Proselike(p)
    ensures Affected(files) == [AutomationTests, PythonTests, PythonLint, SpecValidation, Rel001Benchmark, PackagingContract, WebBuild, WebLint]
  {
    hide Normal, PackagingTool, BenchmarkTool, Affected, NoCode, InSpecs;
    var p := Normal(files[i]);
    NoCodeMeans(p);
    ProseMeans(p);
    assert !EndsWith(p, ".py");
    EverythingRuns(files, i);
  }
}
