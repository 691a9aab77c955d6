/** What the source-archive checks approve, in literal terms. */
module ArchiveDetails {
  import opened Wrappers
  import opened PosixPath
  import opened ArchiveInspection
  import opened SdistLimits

  // ---------- Approved names ----------

  predicate IsRoot(p: string) {
    || p == ".agents" || p == ".codex" || p == ".cursor" || p == ".github" || p == ".gitignore" || p == "AGENTS.md"
    || p == "BOTTLE_NECKS.md" || p == "CONTEXT_TRACER.md" || p == "CRITIQUE.md" || p == "CURSOR_HOOKS.md"
    || p == "DEPENDENCY_GRAPH.md" || p == "FRAMEWORK_STRESS_TEST_SESSION_2.md" || p == "GENERATORS.md"
    || p == "IMPLEMENTATION_ROADMAP.md" || p == "INVARIANTS.md" || p == "LICENSE" || p == "NOTICE" || p == "PKG-INFO"
    || p == "PLANS.md" || p == "README.md" || p == "SECURITY.md" || p == "SPEC_LANGUAGE.md" || p == "STRESS_TEST_REPORT.md"
    || p == "UCF_FRAMEWORK_GUIDE.md" || p == "adapters" || p == "docs" || p == "examples" || p == "pyproject.toml"
    || p == "specs" || p == "src" || p == "tests" || p == "tools" || p == "uv.lock" || p == "web"
  }

  predicate IsForbidden(p: string) {
    || p == ".artifacts" || p == ".git" || p == ".pytest_cache" || p == ".ruff_cache" || p == ".venv" || p == "__pycache__"
    || p == "build" || p == "dist" || p == "htmlcov" || p == "node_modules"
    || (|p| >= 9 && p[|p| - 9..] == ".egg-info")
  }

  predicate IsGenerated(p: string) {
    p == ".coverage" || (|p| > 4 && (p[|p| - 4..] == ".pyc" || p[|p| - 4..] == ".pyo"))
  }

  /** The name, cut at its slashes, starts at an allowed root, goes through no forbidden directory, and is not one
      itself, or, for a file, is not generated. */
  predicate ApprovedName(name: string, isDirectory: bool) {
    var parts := Split(name);
    && IsRoot(parts[0])
    && (forall i :: 0 <= i < |parts| - 1 ==> !IsForbidden(parts[i]))
    && (if isDirectory then !IsForbidden(parts[|parts| - 1]) else !IsGenerated(parts[|parts| - 1]))
  }

  lemma RootIff(p: string)
    ensures p in AllowedSdistRoots() <==> IsRoot(p)
  {
  }

  lemma ForbiddenIff(p: string)
    ensures ForbiddenDirectory(p) <==> IsForbidden(p)
  {
  }

  lemma GeneratedIff(p: string)
    ensures p != ".coverage" && !HasSuffix(p, ".pyc") && !HasSuffix(p, ".pyo") <==> !IsGenerated(p)
  {
  }

  lemma ApprovalIff(parts: seq<string>, name: string, isDirectory: bool)
    requires parts != [] && Split(name) == parts
    ensures RelativeOk(parts, isDirectory) <==> ApprovedName(name, isDirectory)
  {
    hide IsRoot, IsForbidden, IsGenerated, AllowedSdistRoots, ForbiddenDirectory, HasSuffix, Split;
    RootIff(parts[0]);
    GeneratedIff(parts[|parts| - 1]);
    forall i | 0 <= i < |parts| ensures ForbiddenDirectory(parts[i]) <==> IsForbidden(parts[i]) { ForbiddenIff(parts[i]); }
  }

  /** The parts of a safe path are its pieces between slashes. */
  lemma SafeParts(raw: string)
    requires SafeMemberPath(raw).Some? && raw != "."
    ensures SafeMemberPath(raw).value == Split(raw) && ValidParts(Split(raw))
  {
    hide SafeMemberPath;
    SafePathsAreJoins(raw);
    SplitJoin(SafeMemberPath(raw).value);
  }

  /** A file's path is approved exactly when it is safe, is not ".", and its name is approved. */
  lemma PathOkIff(name: string)
    ensures PathOk(name) <==> SafeMemberPath(name).Some? && name != "." && ApprovedName(name, false)
  {
    hide SafeMemberPath, RelativeOk, ApprovedName, Split;
    OnlyDotHasNoParts(name);
    if SafeMemberPath(name).Some? && name != "." {
      SafeParts(name);
      ApprovalIff(Split(name), name, false);
    } else {
      NothingApproved();
    }
  }

  lemma NothingApproved()
    ensures !RelativeOk([], false)
  {
  }

  // ---------- The batch check ----------

  predicate IsRequired(p: string) {
    || p == ".gitignore" || p == "AGENTS.md" || p == "LICENSE" || p == "NOTICE" || p == "PKG-INFO" || p == "README.md"
    || p == "SECURITY.md" || p == "adapters/go-stdlib/go.mod" || p == "adapters/python-pytest/adapter.py"
    || p == "adapters/typescript-fastify/package.json" || p == "docs/CAPABILITIES.md"
    || p == "docs/automation/TARGET_STATE.md" || p == "pyproject.toml" || p == "specs/use-cases/validate-spec-directory.yaml"
    || p == "src/ucf/__init__.py" || p == "src/ucf/adapter_conformance/assets/v1/manifest.json"
    || p == "src/ucf/schemas/ir/v1/schema.json" || p == "tests/__init__.py"
    || p == "tests/automation/test_release_distribution.py" || p == "tools/package_contract.py"
    || p == "tools/release_check.py" || p == "uv.lock" || p == "web/package.json"
  }

  lemma RequiredIff(p: string)
    ensures p in RequiredSdistMembers() <==> IsRequired(p)
  {
  }

  lemma AllRequired(paths: seq<string>)
    ensures RequiredPresent(paths) <==> forall p :: IsRequired(p) ==> p in paths
  {
    hide IsRequired, RequiredSdistMembers;
    forall p ensures p in RequiredSdistMembers() <==> IsRequired(p) { RequiredIff(p); }
  }

  /** The batch validator accepts exactly these paths and sizes. */
  lemma BatchAcceptsIff(paths: seq<string>, archiveSize: int, sizes: map<string, int>)
    ensures OtherwiseOk(paths, archiveSize, sizes) && RequiredPresent(paths) <==>
            && archiveSize <= 5_242_880 && |paths| <= 2_000
            && (forall i, j :: 0 <= i < j < |paths| ==> paths[i] != paths[j])
            && (forall p :: p in sizes <==> p in paths) && (forall p :: p in sizes ==> 0 <= sizes[p] <= 5_242_880)
            && Sum(sizes) <= 26_214_400
            && (forall p :: p in paths ==> SafeMemberPath(p).Some? && p != "." && ApprovedName(p, false))
            && forall p :: IsRequired(p) ==> p in paths
  {
    hide SafeMemberPath, PathOk, ApprovedName, IsRequired, RequiredPresent, Sum;
    AllRequired(paths);
    forall p ensures PathOk(p) <==> SafeMemberPath(p).Some? && p != "." && ApprovedName(p, false) { PathOkIff(p); }
  }

  // ---------- The members of an archive ----------

  /** The name of a member without the slash that a directory may end in. */
  function MemberName(m: Member): string {
    if m.kind == DirectoryMember && |m.name| >= 1 && m.name[|m.name| - 1] == '/' then m.name[..|m.name| - 1] else m.name
  }

  lemma RawNameIs(m: Member)
    ensures RawName(m) == MemberName(m)
  {
    if |m.name| >= 1 { assert m.name[|m.name| - 1..] == [m.name[|m.name| - 1]]; }
  }

  /** A member below the root directory: its safe name is the root, a slash, and an approved name. */
  predicate ApprovedMember(m: Member, root: string) {
    var name := MemberName(m);
    && m.kind != LinkOrSpecial && SafeMemberPath(name).Some?
    && (if name == root then m.kind == DirectoryMember
        else
          && |name| > |root| && name[..|root|] == root && name[|root|] == '/'
          && ApprovedName(name[|root| + 1..], m.kind == DirectoryMember)
          && (if m.kind == DirectoryMember then m.size == 0 else 0 <= m.size <= 5_242_880 && m.size <= |m.data|))
  }

  lemma RootOnly(name: string, root: string)
    requires SafeMemberPath(name).Some? && name != "." && ValidPart(root)
    ensures SafeMemberPath(name).value == [root] <==> name == root
    ensures |SafeMemberPath(name).value| > 1 && SafeMemberPath(name).value[0] == root <==>
            |name| > |root| && name[..|root|] == root && name[|root|] == '/'
    ensures |SafeMemberPath(name).value| > 1 && SafeMemberPath(name).value[0] == root ==>
              SafeMemberPath(name).value[1..] == Split(name[|root| + 1..])
    ensures SafeMemberPath(name).value != []
  {
    hide SafeMemberPath, Split;
    var parts := SafeMemberPath(name).value;
    OnlyDotHasNoParts(name);
    SafePathsAreJoins(name);
    SafeParts(name);
    SplitPart(root, "");
    if |name| > |root| && name[..|root|] == root && name[|root|] == '/' {
      var rest := name[|root| + 1..];
      assert name == root + "/" + rest;
      SplitPart(root, rest);
    }
    if |parts| > 1 && parts[0] == root {
      assert name == root + "/" + Join(parts[1..]);
    }
  }

  /** The loop's conditions on a member, exactly. */
  lemma MemberOkIff(m: Member, root: string)
    requires ValidPart(root)
    ensures MemberOk(m, root) <==> ApprovedMember(m, root)
  {
    hide SafeMemberPath, RelativeOk, ApprovedName, RawName, MemberName, ValidPart, Split;
    var name := MemberName(m);
    RawNameIs(m);
    OnlyDotHasNoParts(name);
    DotIsNotBelow(root);
    if SafeMemberPath(name).Some? && name != "." {
      RootOnly(name, root);
      if |name| > |root| && name[..|root|] == root && name[|root|] == '/' {
        ApprovalIff(SafeMemberPath(name).value[1..], name[|root| + 1..], m.kind == DirectoryMember);
      }
    }
  }

  lemma DotIsNotBelow(root: string)
    requires ValidPart(root)
    ensures "." != root && !(|"."| > |root|)
  {
  }

  /** The archive loop accepts exactly these members. */
  lemma LoopAcceptsIff(ms: seq<Member>, root: string)
    requires ValidPart(root)
    ensures Acceptable(Items(ms, root)) <==>
            && |ms| <= 2_000 && FileBytes(Items(ms, root)) <= 26_214_400
            && (forall i :: 0 <= i < |ms| ==> ApprovedMember(ms[i], root))
            && forall i, j :: 0 <= i < j < |ms| ==> MemberName(ms[i]) != MemberName(ms[j])
  {
    hide ApprovedMember, MemberName, MemberOk, HeaderOk, RawName, FileBytes, ValidPart;
    var ts := Items(ms, root);
    forall i | 0 <= i < |ms| ensures ts[i].ok == ApprovedMember(ms[i], root) && ts[i].rawName == MemberName(ms[i]) {
      ItemAt(ms, root, i);
      MemberOkIff(ms[i], root);
      RawNameIs(ms[i]);
    }
  }

  /** Hence every file of an accepted archive has an approved name below the root. */
  lemma AcceptedNames(ms: seq<Member>, root: string, i: nat)
    requires ValidPart(root) && i < |ms| && Acceptable(Items(ms, root)) && ms[i].kind == RegularFile
    ensures |ms[i].name| > |root| && ms[i].name[..|root|] == root && ms[i].name[|root|] == '/'
    ensures ApprovedName(ms[i].name[|root| + 1..], false) && 0 <= ms[i].size <= 5_242_880
  {
    hide ApprovedName, SafeMemberPath, Acceptable;
    LoopAcceptsIff(ms, root);
  }

  /** For one, a file below `node_modules` in any top-level directory is refused. */
  lemma NodeModulesRefused(top: string, below: string)
    requires '/' !in top
    ensures !ApprovedName(top + "/" + ("node_modules" + "/" + below), false)
  {
    hide IsRoot, IsGenerated, IsForbidden, Split;
    NodeModules();
    SplitPart(top, "node_modules" + "/" + below);
    SplitPart("node_modules", below);
    var parts := Split(top + "/" + ("node_modules" + "/" + below));
    assert parts == [top] + (["node_modules"] + Split(below));
    assert parts[1] == "node_modules";
  }

  lemma NodeModules()
    ensures IsForbidden("node_modules") && '/' !in "node_modules"
  {
  }
}
