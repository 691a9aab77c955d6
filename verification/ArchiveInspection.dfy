/** `_inspect_sdist_contents`: the one-pass inspection of a source archive's members, and the batch check
    `validate_sdist_member_paths` that follows it. */
module ArchiveInspection {
  import opened Bytes
  import opened Wrappers
  import opened PosixPath
  import opened Affix
  import opened SdistLimits
  import Utf8

  function RequiredSdistMembers(): set<string> {
    {
    ".gitignore", "AGENTS.md", "LICENSE", "NOTICE", "PKG-INFO", "README.md", "SECURITY.md",
    "adapters/go-stdlib/go.mod", "adapters/python-pytest/adapter.py", "adapters/typescript-fastify/package.json",
    "docs/CAPABILITIES.md", "docs/automation/TARGET_STATE.md", "pyproject.toml",
    "specs/use-cases/validate-spec-directory.yaml", "src/ucf/__init__.py",
    "src/ucf/adapter_conformance/assets/v1/manifest.json", "src/ucf/schemas/ir/v1/schema.json", "tests/__init__.py",
    "tests/automation/test_release_distribution.py", "tools/package_contract.py", "tools/release_check.py",
    "uv.lock", "web/package.json"}
  }

  function AllowedSdistRoots(): set<string> {
    {
    ".agents", ".codex", ".cursor", ".github", ".gitignore", "AGENTS.md", "BOTTLE_NECKS.md", "CONTEXT_TRACER.md",
    "CRITIQUE.md", "CURSOR_HOOKS.md", "DEPENDENCY_GRAPH.md", "FRAMEWORK_STRESS_TEST_SESSION_2.md", "GENERATORS.md",
    "IMPLEMENTATION_ROADMAP.md", "INVARIANTS.md", "LICENSE", "NOTICE", "PKG-INFO", "PLANS.md", "README.md",
    "SECURITY.md", "SPEC_LANGUAGE.md", "STRESS_TEST_REPORT.md", "UCF_FRAMEWORK_GUIDE.md", "adapters", "docs",
    "examples", "pyproject.toml", "specs", "src", "tests", "tools", "uv.lock", "web"}
  }

  function ForbiddenDirectoryNames(): set<string> {
    {
    ".artifacts", ".git", ".pytest_cache", ".ruff_cache", ".venv", "__pycache__", "build", "dist", "htmlcov",
    "node_modules"}
  }

  datatype Kind = RegularFile | DirectoryMember | LinkOrSpecial

  /** One tar member: the declared size and the bytes that can be read for it. */
  datatype Member = Member(name: string, kind: Kind, size: int, data: bytes)

  datatype SdistError =
    | ArchiveTooLarge | TooManyMembers | NotFileOrDirectory | UnsafePath | DuplicateMember
    | NoPathParts  // Python's uncaught IndexError on `path.parts[0]`
    | WrongRoot | RootNotDirectory | UnapprovedPath | DirectoryHasSize | MemberTooLarge | TotalTooLarge
    | Truncated | InventoryDiffers | InvalidSize | MissingRequired | PkgInfoCount

  datatype Inspection = Inspection(
    relativeFiles: seq<string>,
    memberSizes: map<string, int>,
    sourceManifest: map<string, string>,
    metadataPayloads: seq<bytes>,
    memberCount: nat,
    directoryCount: nat,
    fileBytes: int,
    largestMember: int)

  // ---------- What makes one member acceptable ----------

  predicate ForbiddenDirectory(part: string) {
    part in ForbiddenDirectoryNames() || EndsWith(part, ".egg-info")
  }

  /** A name whose `PurePosixPath.suffix` is `tail`: the dot must not be the first character. */
  predicate HasSuffix(name: string, tail: string) {
    |name| > |tail| && EndsWith(name, tail)
  }

  /** `_validate_sdist_relative_path`. */
  predicate RelativeOk(parts: seq<string>, isDirectory: bool) {
    && parts != [] && parts[0] in AllowedSdistRoots()
    && (forall i :: 0 <= i < (if isDirectory then |parts| else |parts| - 1) ==> !ForbiddenDirectory(parts[i]))
    && (isDirectory || (var name := parts[|parts| - 1];
          name != ".coverage" && !HasSuffix(name, ".pyc") && !HasSuffix(name, ".pyo")))
  }

  /** `_canonical_tar_member_path` drops one trailing slash of a directory. */
  function RawName(m: Member): string {
    if m.kind == DirectoryMember && EndsWith(m.name, "/") then m.name[..|m.name| - 1] else m.name
  }

  /** Everything the loop checks of a member by itself, before its content is read. */
  predicate HeaderOk(m: Member, root: string) {
    && m.kind != LinkOrSpecial
    && SafeMemberPath(RawName(m)).Some?
    && var parts := SafeMemberPath(RawName(m)).value;
    && parts != [] && parts[0] == root
    && (if |parts| == 1 then m.kind == DirectoryMember
        else RelativeOk(parts[1..], m.kind == DirectoryMember) &&
             (if m.kind == DirectoryMember then m.size == 0 else 0 <= m.size <= MAX_SDIST_MEMBER_BYTES))
  }

  predicate MemberOk(m: Member, root: string) {
    HeaderOk(m, root) && (m.kind == RegularFile ==> m.size <= |m.data|)
  }

  function RelativeParts(m: Member): Option<seq<string>> {
    match SafeMemberPath(RawName(m))
    case Some(parts) => if parts == [] then None else Some(parts[1..])
    case None => None
  }

  function RelativeName(m: Member): string {
    match RelativeParts(m)
    case Some(parts) => Join(parts)
    case None => ""
  }

  function Payload(m: Member): bytes { if 0 <= m.size <= |m.data| then m.data[..m.size] else m.data }

  // ---------- What the inspection reports about a list of members ----------

  /** One member as the inspection sees it. */
  datatype Item = Item(headerOk: bool, ok: bool, kind: Kind, rawName: string, name: string, size: int, payload: bytes)

  function ItemOf(m: Member, root: string): Item {
    Item(HeaderOk(m, root), MemberOk(m, root), m.kind, RawName(m), RelativeName(m), m.size, Payload(m))
  }

  function Items(ms: seq<Member>, root: string): (items: seq<Item>)
    ensures |items| == |ms|
  {
    if ms == [] then [] else Items(ms[..|ms| - 1], root) + [ItemOf(ms[|ms| - 1], root)]
  }

  lemma {:induction false} ItemAt(ms: seq<Member>, root: string, i: nat)
    requires i < |ms|
    ensures Items(ms, root)[i] == ItemOf(ms[i], root)
  {
    if i < |ms| - 1 { ItemAt(ms[..|ms| - 1], root, i); }
  }

  predicate IsFile(t: Item) { t.kind == RegularFile }

  function FileNames(ts: seq<Item>): seq<string> {
    if ts == [] then []
    else
      var t := ts[|ts| - 1];
      FileNames(ts[..|ts| - 1]) + (if IsFile(t) then [t.name] else [])
  }

  function FileBytes(ts: seq<Item>): int {
    if ts == [] then 0
    else var t := ts[|ts| - 1]; FileBytes(ts[..|ts| - 1]) + (if IsFile(t) then t.size else 0)
  }

  function Directories(ts: seq<Item>): nat {
    if ts == [] then 0
    else Directories(ts[..|ts| - 1]) + (if ts[|ts| - 1].kind == DirectoryMember then 1 else 0)
  }

  /** The payloads of the files called PKG-INFO. */
  function PkgInfos(ts: seq<Item>): seq<bytes> {
    if ts == [] then []
    else
      var t := ts[|ts| - 1];
      PkgInfos(ts[..|ts| - 1]) + (if IsFile(t) && t.name == "PKG-INFO" then [t.payload] else [])
  }

  /** The whole archive passes the loop. */
  ghost predicate Acceptable(ts: seq<Item>) {
    && |ts| <= MAX_SDIST_MEMBERS
    && (forall i :: 0 <= i < |ts| ==> ts[i].ok)
    && (forall i, j :: 0 <= i < j < |ts| ==> ts[i].rawName != ts[j].rawName)
    && FileBytes(ts) <= MAX_SDIST_UNCOMPRESSED_BYTES
  }

  ghost predicate Recorded(r: Inspection, t: Item, sha256: bytes -> string) {
    && t.name in r.memberSizes && r.memberSizes[t.name] == t.size && t.size <= r.largestMember
    && (t.name != "PKG-INFO" ==> t.name in r.sourceManifest && r.sourceManifest[t.name] == sha256(t.payload))
  }

  ghost predicate ReportsLists(r: Inspection, ts: seq<Item>) {
    && r.relativeFiles == FileNames(ts) && r.metadataPayloads == PkgInfos(ts)
    && r.memberCount == |ts| && r.directoryCount == Directories(ts) && r.fileBytes == FileBytes(ts)
  }

  ghost predicate ReportsMaps(r: Inspection, ts: seq<Item>, sha256: bytes -> string) {
    && (forall n :: n in r.memberSizes <==> n in r.relativeFiles)
    && (forall n :: n in r.sourceManifest <==> n in r.relativeFiles && n != "PKG-INFO")
    && (forall i :: 0 <= i < |ts| && IsFile(ts[i]) ==> Recorded(r, ts[i], sha256))
  }

  ghost predicate ReportsLargest(r: Inspection, ts: seq<Item>) {
    r.largestMember == 0 || exists i :: 0 <= i < |ts| && IsFile(ts[i]) && ts[i].size == r.largestMember
  }

  /** Every field of the inspection says what the members seen so far are. */
  ghost predicate Reports(r: Inspection, ts: seq<Item>, sha256: bytes -> string) {
    ReportsLists(r, ts) && ReportsMaps(r, ts, sha256) && ReportsLargest(r, ts)
  }

  // ---------- Facts about one member ----------

  lemma SafeRoundTrip(raw: string)
    requires SafeMemberPath(raw).Some? && SafeMemberPath(raw).value != []
    ensures ValidParts(SafeMemberPath(raw).value) && Join(SafeMemberPath(raw).value) == raw
  {
    SafePathsAreJoins(raw);
  }

  /** The relative name of an acceptable file is itself a safe path with the remaining parts. */
  lemma RelativeIsSafe(m: Member, root: string)
    requires MemberOk(m, root) && m.kind == RegularFile
    ensures var parts := SafeMemberPath(RawName(m)).value;
      |parts| > 1 && SafeMemberPath(RelativeName(m)) == Some(parts[1..]) && RawName(m) == root + "/" + RelativeName(m)
    ensures RelativeOk(SafeMemberPath(RelativeName(m)).value, false)
    ensures 0 <= m.size <= MAX_SDIST_MEMBER_BYTES && m.size <= |m.data|
  {
    var parts := SafeMemberPath(RawName(m)).value;
    SafeRoundTrip(RawName(m));
    var rel := parts[1..];
    forall i | 0 <= i < |rel| ensures ValidPart(rel[i]) { assert rel[i] == parts[i + 1]; }
    Utf8.EncodeConcat(root + "/", Join(rel));
    assert root + "/" + Join(rel) == (root + "/") + Join(rel);
    JoinIsSafe(rel);
  }

  /** What an acceptable item guarantees. */
  ghost predicate Sound(ts: seq<Item>, root: string) {
    && (forall i :: 0 <= i < |ts| && ts[i].ok && IsFile(ts[i]) ==> SoundFile(ts[i], root))
    && (forall i :: 0 <= i < |ts| && ts[i].ok ==> ts[i].kind != LinkOrSpecial)
  }

  ghost predicate SoundFile(t: Item, root: string) {
    && 0 <= t.size <= MAX_SDIST_MEMBER_BYTES && t.rawName == root + "/" + t.name
    && SafeMemberPath(t.name).Some? && RelativeOk(SafeMemberPath(t.name).value, false)
  }

  lemma ItemsAreSound(ms: seq<Member>, root: string)
    ensures Sound(Items(ms, root), root)
  {
    var ts := Items(ms, root);
    forall i | 0 <= i < |ts| && ts[i].ok && IsFile(ts[i]) ensures SoundFile(ts[i], root) {
      ItemAt(ms, root, i);
      RelativeIsSafe(ms[i], root);
    }
    forall i | 0 <= i < |ts| && ts[i].ok ensures ts[i].kind != LinkOrSpecial {
      ItemAt(ms, root, i);
    }
  }

  // ---------- Facts about lists of items ----------

  lemma {:induction false} FileNamesFrom(ts: seq<Item>, k: nat) returns (i: nat)
    requires k < |FileNames(ts)|
    ensures i < |ts| && IsFile(ts[i]) && ts[i].name == FileNames(ts)[k]
    ensures |FileNames(ts[..i])| == k
  {
    var n := |ts| - 1;
    if k < |FileNames(ts[..n])| {
      i := FileNamesFrom(ts[..n], k);
      assert ts[..n][..i] == ts[..i];
    } else {
      i := n;
    }
  }

  lemma {:induction false} FileNamesOf(ts: seq<Item>, i: nat)
    requires i < |ts| && IsFile(ts[i])
    ensures ts[i].name in FileNames(ts)
  {
    var n := |ts| - 1;
    if i < n {
      FileNamesOf(ts[..n], i);
    }
  }

  lemma {:induction false} CountsAddUp(ts: seq<Item>)
    requires forall i :: 0 <= i < |ts| ==> ts[i].kind != LinkOrSpecial
    ensures |FileNames(ts)| + Directories(ts) == |ts|
  {
    if ts != [] { CountsAddUp(ts[..|ts| - 1]); }
  }

  lemma FileNamesDistinct(ts: seq<Item>, root: string)
    requires Acceptable(ts) && Sound(ts, root)
    ensures forall a, b :: 0 <= a < b < |FileNames(ts)| ==> FileNames(ts)[a] != FileNames(ts)[b]
  {
    forall a, b | 0 <= a < b < |FileNames(ts)| ensures FileNames(ts)[a] != FileNames(ts)[b] {
      var i := FileNamesFrom(ts, a);
      var j := FileNamesFrom(ts, b);
      assert SoundFile(ts[i], root) && SoundFile(ts[j], root);
      assert i != j ==> ts[i].rawName != ts[j].rawName;
    }
  }

  lemma {:induction false} FileBytesGrow(ts: seq<Item>, i: nat)
    requires i <= |ts| && forall k :: 0 <= k < |ts| && IsFile(ts[k]) ==> 0 <= ts[k].size
    ensures 0 <= FileBytes(ts[..i]) <= FileBytes(ts)
    decreases |ts|
  {
    if ts != [] {
      var n := |ts| - 1;
      if i <= n {
        FileBytesGrow(ts[..n], i);
        assert ts[..n][..i] == ts[..i];
      } else {
        FileBytesGrow(ts[..n], 0);
        assert ts[..i] == ts;
      }
    }
  }

  lemma SizesNonNegative(ts: seq<Item>, root: string)
    requires Sound(ts, root) && forall k :: 0 <= k < |ts| ==> ts[k].ok
    ensures forall k :: 0 <= k < |ts| && IsFile(ts[k]) ==> 0 <= ts[k].size
  {
    hide SafeMemberPath, RelativeOk;
    forall k | 0 <= k < |ts| && IsFile(ts[k]) ensures 0 <= ts[k].size {
      assert SoundFile(ts[k], root);
    }
  }

  lemma TooManyBytes(ts: seq<Item>, root: string, i: nat)
    requires i <= |ts| && FileBytes(ts[..i]) > MAX_SDIST_UNCOMPRESSED_BYTES && Sound(ts, root)
    ensures !Acceptable(ts)
  {
    if forall k :: 0 <= k < |ts| ==> ts[k].ok {
      SizesNonNegative(ts, root);
      FileBytesGrow(ts, i);
    }
  }

  /** One more acceptable item. */
  lemma AcceptMore(ts: seq<Item>, i: nat)
    requires i < |ts| && i < MAX_SDIST_MEMBERS && Acceptable(ts[..i]) && ts[i].ok
    requires forall k :: 0 <= k < i ==> ts[k].rawName != ts[i].rawName
    requires FileBytes(ts[..i + 1]) <= MAX_SDIST_UNCOMPRESSED_BYTES
    ensures Acceptable(ts[..i + 1])
  {
    var before, now := ts[..i], ts[..i + 1];
    assert forall k :: 0 <= k < i ==> now[k] == before[k];
  }

  lemma NewName(ts: seq<Item>, root: string, i: nat)
    requires i < |ts| && Sound(ts, root) && Acceptable(ts[..i]) && ts[i].ok && IsFile(ts[i])
    requires forall k :: 0 <= k < i ==> ts[k].rawName != ts[i].rawName
    ensures ts[i].name !in FileNames(ts[..i])
  {
    var before := ts[..i];
    forall a | 0 <= a < |FileNames(before)| ensures FileNames(before)[a] != ts[i].name {
      var k := FileNamesFrom(before, a);
      assert before[k] == ts[k] && SoundFile(ts[k], root) && SoundFile(ts[i], root);
    }
  }

  lemma Previous(ts: seq<Item>, i: nat)
    requires i < |ts|
    ensures |ts[..i + 1]| == i + 1 && ts[..i + 1][..i] == ts[..i] && ts[..i + 1][i] == ts[i]
    ensures forall k :: 0 <= k < i ==> ts[..i + 1][k] == ts[..i][k]
  {
  }

  ghost function RawNames(ts: seq<Item>): set<string> { set t | t in ts :: t.rawName }

  lemma RawNamesGrow(ts: seq<Item>, i: nat)
    requires i < |ts|
    ensures RawNames(ts[..i + 1]) == RawNames(ts[..i]) + {ts[i].rawName}
    ensures ts[i].rawName !in RawNames(ts[..i]) ==> forall k :: 0 <= k < i ==> ts[k].rawName != ts[i].rawName
    ensures ts[i].rawName in RawNames(ts[..i]) ==> exists k :: 0 <= k < i && ts[k].rawName == ts[i].rawName
  {
    assert ts[..i + 1] == ts[..i] + [ts[i]];
    assert forall k :: 0 <= k < i ==> ts[k] in ts[..i];
  }

  lemma ReportDirectory(ts: seq<Item>, i: nat, sha256: bytes -> string, r: Inspection)
    requires i < |ts| && Reports(r, ts[..i], sha256) && ts[i].kind == DirectoryMember
    ensures Reports(WithDirectory(r), ts[..i + 1], sha256)
  {
    Previous(ts, i);
    var r' := WithDirectory(r);
    var now := ts[..i + 1];
    forall k | 0 <= k < |now| && IsFile(now[k]) ensures Recorded(r', now[k], sha256) {
      assert Recorded(r, ts[..i][k], sha256);
    }
    LargestKept(ts, i, r, r');
  }

  lemma LargestKept(ts: seq<Item>, i: nat, r: Inspection, r': Inspection)
    requires i < |ts| && ReportsLargest(r, ts[..i]) && r'.largestMember == r.largestMember
    ensures ReportsLargest(r', ts[..i + 1])
  {
    Previous(ts, i);
    if r.largestMember != 0 {
      var k :| 0 <= k < |ts[..i]| && IsFile(ts[..i][k]) && ts[..i][k].size == r.largestMember;
      assert IsFile(ts[..i + 1][k]);
    }
  }

  /** The updates that the loop makes for one file, and for one directory. */
  function WithFile(r: Inspection, name: string, size: int, payload: bytes, sha256: bytes -> string): Inspection {
    Inspection(
      r.relativeFiles + [name], r.memberSizes[name := size],
      if name == "PKG-INFO" then r.sourceManifest else r.sourceManifest[name := sha256(payload)],
      if name == "PKG-INFO" then r.metadataPayloads + [payload] else r.metadataPayloads,
      r.memberCount + 1, r.directoryCount, r.fileBytes + size,
      if size > r.largestMember then size else r.largestMember)
  }

  function WithDirectory(r: Inspection): Inspection {
    r.(memberCount := r.memberCount + 1, directoryCount := r.directoryCount + 1)
  }

  lemma ReportFile(ts: seq<Item>, i: nat, sha256: bytes -> string, r: Inspection)
    requires i < |ts| && Reports(r, ts[..i], sha256) && IsFile(ts[i]) && ts[i].name !in r.relativeFiles
    ensures Reports(WithFile(r, ts[i].name, ts[i].size, ts[i].payload, sha256), ts[..i + 1], sha256)
  {
    var r' := WithFile(r, ts[i].name, ts[i].size, ts[i].payload, sha256);
    Previous(ts, i);
    RecordFile(ts, i, sha256, r);
    if r'.largestMember == r.largestMember { LargestKept(ts, i, r, r'); }
    else { assert IsFile(ts[..i + 1][i]); }
  }

  lemma RecordFile(ts: seq<Item>, i: nat, sha256: bytes -> string, r: Inspection)
    requires i < |ts| && IsFile(ts[i]) && ts[i].name !in r.relativeFiles
    requires ReportsLists(r, ts[..i]) && ReportsMaps(r, ts[..i], sha256)
    ensures ReportsMaps(WithFile(r, ts[i].name, ts[i].size, ts[i].payload, sha256), ts[..i + 1], sha256)
  {
    var r', now := WithFile(r, ts[i].name, ts[i].size, ts[i].payload, sha256), ts[..i + 1];
    Previous(ts, i);
    forall k | 0 <= k < |now| && IsFile(now[k]) ensures Recorded(r', now[k], sha256) {
      if k < i {
        FileNamesOf(ts[..i], k);
        assert Recorded(r, ts[..i][k], sha256);
      }
    }
    forall n ensures n in r'.memberSizes <==> n in r'.relativeFiles {
      assert n in r'.relativeFiles <==> n in r.relativeFiles || n == ts[i].name;
    }
    forall n ensures n in r'.sourceManifest <==> n in r'.relativeFiles && n != "PKG-INFO" {
      assert n in r'.relativeFiles <==> n in r.relativeFiles || n == ts[i].name;
    }
  }

  datatype Checked = Checked(canonicalName: string, relative: seq<string>)

  /** A file or directory with a safe path of at least one part that has not been seen. */
  predicate NewPath(m: Member, canonicalMembers: set<string>) {
    && m.kind != LinkOrSpecial && RawName(m) !in canonicalMembers
    && SafeMemberPath(RawName(m)).Some? && SafeMemberPath(RawName(m)).value != []
  }

  predicate Below(m: Member, root: string, canonicalMembers: set<string>) {
    && NewPath(m, canonicalMembers)
    && var parts := SafeMemberPath(RawName(m)).value; parts[0] == root && |parts| > 1
  }

  predicate Approved(m: Member)
    requires SafeMemberPath(RawName(m)).Some? && SafeMemberPath(RawName(m)).value != []
  {
    RelativeOk(SafeMemberPath(RawName(m)).value[1..], m.kind == DirectoryMember)
  }

  /** The member checks of the loop body, in the source's order. */
  method CheckMember(member: Member, root: string, canonicalMembers: set<string>) returns (r: Result<Checked, SdistError>)
    ensures var t := ItemOf(member, root);
      && t.kind == member.kind && t.size == member.size
      && (r.Ok? <==> t.headerOk && t.rawName !in canonicalMembers)
      && (r.Ok? ==> r.value.canonicalName == t.rawName && Join(r.value.relative) == t.name)
      && (r.Ok? && member.kind != DirectoryMember ==>
            t.kind == RegularFile && t.size >= 0 && (t.ok <==> t.size <= |member.data|) &&
            (t.ok ==> t.payload == member.data[..t.size]))
      && (r.Ok? && member.kind == DirectoryMember ==> t.ok)
      && (t.ok ==> t.headerOk)
    ensures r == Err(NotFileOrDirectory) <==> member.kind == LinkOrSpecial
    ensures r == Err(UnsafePath) <==> member.kind != LinkOrSpecial && SafeMemberPath(RawName(member)).None?
    ensures r == Err(DuplicateMember) <==>
            member.kind != LinkOrSpecial && SafeMemberPath(RawName(member)).Some? && RawName(member) in canonicalMembers
    ensures r == Err(NoPathParts) <==> member.kind != LinkOrSpecial && RawName(member) == "." && "." !in canonicalMembers
    ensures r == Err(WrongRoot) <==> NewPath(member, canonicalMembers) && SafeMemberPath(RawName(member)).value[0] != root
    ensures r == Err(RootNotDirectory) <==>
            NewPath(member, canonicalMembers) && SafeMemberPath(RawName(member)).value == [root] && member.kind == RegularFile
    ensures r == Err(UnapprovedPath) <==> Below(member, root, canonicalMembers) && !Approved(member)
    ensures r == Err(DirectoryHasSize) <==>
            Below(member, root, canonicalMembers) && Approved(member) && member.kind == DirectoryMember && member.size != 0
    ensures r == Err(MemberTooLarge) <==>
            Below(member, root, canonicalMembers) && Approved(member) && member.kind == RegularFile &&
            !(0 <= member.size <= MAX_SDIST_MEMBER_BYTES)
    ensures r != Err(PkgInfoCount)
  {
    hide SafeMemberPath, RelativeOk, RawName;
    OnlyDotHasNoParts(RawName(member));
    if member.kind == LinkOrSpecial {
      return Err(NotFileOrDirectory);
    }
    var path := SafeMemberPath(RawName(member));
    if path.None? {
      return Err(UnsafePath);
    }
    var parts := path.value;
    if RawName(member) in canonicalMembers {
      return Err(DuplicateMember);
    }
    if parts == [] {
      return Err(NoPathParts);
    }
    if parts[0] != root {
      return Err(WrongRoot);
    }
    var relative := parts[1..];
    assert relative == [] <==> parts == [root];
    if relative == [] {
      if member.kind != DirectoryMember {
        return Err(RootNotDirectory);
      }
    } else if !RelativeOk(relative, member.kind == DirectoryMember) {
      return Err(UnapprovedPath);
    } else if member.kind == DirectoryMember {
      if member.size != 0 {
        return Err(DirectoryHasSize);
      }
    } else if member.size < 0 || member.size > MAX_SDIST_MEMBER_BYTES {
      return Err(MemberTooLarge);
    }
    r := Ok(Checked(RawName(member), relative));
  }

  // ---------- The loop ----------

  /** The first `i` items passed, and `r` and `canonical` say what they are. */
  ghost predicate Progress(ts: seq<Item>, i: nat, r: Inspection, canonical: set<string>, sha256: bytes -> string)
    requires i <= |ts|
  {
    Acceptable(ts[..i]) && canonical == RawNames(ts[..i]) && Reports(r, ts[..i], sha256)
  }

  lemma Start(ts: seq<Item>, sha256: bytes -> string)
    ensures Progress(ts, 0, Inspection([], map[], map[], [], 0, 0, 0, 0), {}, sha256)
  {
  }

  lemma Counted(ts: seq<Item>, i: nat, r: Inspection, canonical: set<string>, sha256: bytes -> string)
    requires i <= |ts| && Progress(ts, i, r, canonical, sha256)
    ensures r.memberCount == i
    ensures i == |ts| ==> Acceptable(ts) && Reports(r, ts, sha256)
  {
    assert i == |ts| ==> ts[..i] == ts;
  }

  lemma DirectoryStep(ts: seq<Item>, i: nat, r: Inspection, canonical: set<string>, sha256: bytes -> string)
    requires i < |ts| && i < MAX_SDIST_MEMBERS && Progress(ts, i, r, canonical, sha256)
    requires ts[i].ok && ts[i].kind == DirectoryMember && ts[i].rawName !in canonical
    ensures Progress(ts, i + 1, WithDirectory(r),
                     canonical + {ts[i].rawName}, sha256)
  {
    Previous(ts, i);
    RawNamesGrow(ts, i);
    ReportDirectory(ts, i, sha256, r);
    AcceptMore(ts, i);
  }

  lemma FileStep(ts: seq<Item>, root: string, i: nat, r: Inspection, canonical: set<string>, sha256: bytes -> string)
    requires i < |ts| && i < MAX_SDIST_MEMBERS && Sound(ts, root) && Progress(ts, i, r, canonical, sha256)
    requires ts[i].ok && ts[i].kind == RegularFile && ts[i].rawName !in canonical
    requires r.fileBytes + ts[i].size <= MAX_SDIST_UNCOMPRESSED_BYTES
    ensures Progress(ts, i + 1, WithFile(r, ts[i].name, ts[i].size, ts[i].payload, sha256), canonical + {ts[i].rawName}, sha256)
  {
    Previous(ts, i);
    RawNamesGrow(ts, i);
    NewName(ts, root, i);
    ReportFile(ts, i, sha256, r);
    AcceptMore(ts, i);
  }

  lemma Refused(ts: seq<Item>, root: string, i: nat, r: Inspection, canonical: set<string>, sha256: bytes -> string)
    requires i < |ts| && Sound(ts, root) && Progress(ts, i, r, canonical, sha256)
    requires i >= MAX_SDIST_MEMBERS || !ts[i].ok || ts[i].rawName in canonical ||
             (ts[i].kind == RegularFile && r.fileBytes + ts[i].size > MAX_SDIST_UNCOMPRESSED_BYTES)
    ensures forall k :: i < k <= |ts| ==> !Acceptable(ts[..k])
    ensures !Acceptable(ts)
  {
    hide SoundFile;
    Previous(ts, i);
    RawNamesGrow(ts, i);
    forall k | i < k <= |ts| ensures !Acceptable(ts[..k]) {
      assert ts[..k][i] == ts[i] && ts[..k][..i + 1] == ts[..i + 1];
      assert forall j :: 0 <= j < k ==> ts[..k][j] == ts[j];
      if IsFile(ts[i]) && r.fileBytes + ts[i].size > MAX_SDIST_UNCOMPRESSED_BYTES { TooManyBytes(ts[..k], root, i + 1); }
    }
    assert ts[..|ts|] == ts;
  }

  // ---------- The member without parts ----------

  /** The member "." is reached: everything before it passes, and it is a file or a directory. */
  ghost predicate DotReached(ms: seq<Member>, root: string, i: nat) {
    && i < |ms| && i < MAX_SDIST_MEMBERS && Acceptable(Items(ms, root)[..i])
    && ms[i].kind != LinkOrSpecial && RawName(ms[i]) == "."
  }

  /** Accepted members are not called ".". */
  lemma NoDotBefore(ms: seq<Member>, root: string, i: nat)
    requires i <= |ms| && Acceptable(Items(ms, root)[..i])
    ensures "." !in RawNames(Items(ms, root)[..i])
    ensures forall k :: 0 <= k < i ==> !DotReached(ms, root, k)
  {
    hide RelativeOk;
    var ts := Items(ms, root);
    DotIsSafe();
    forall k | 0 <= k < i ensures ts[k].rawName != "." && !DotReached(ms, root, k) {
      ItemAt(ms, root, k);
      assert ts[..i][k].ok;
    }
    assert forall k :: 0 <= k < i ==> ts[..i][k] == ts[k];
  }

  /** Whether the loop stops at the member it has reached, and not at any other. */
  lemma DotOnlyHere(ms: seq<Member>, root: string, i: nat, r: Inspection, canonical: set<string>, sha256: bytes -> string)
    requires i < |ms| && Progress(Items(ms, root), i, r, canonical, sha256)
    requires forall k :: i < k <= |ms| ==> !Acceptable(Items(ms, root)[..k])
    ensures "." !in canonical
    ensures (exists k: nat :: DotReached(ms, root, k)) <==>
            i < MAX_SDIST_MEMBERS && ms[i].kind != LinkOrSpecial && RawName(ms[i]) == "."
  {
    hide Acceptable, Items, RawName;
    NoDotBefore(ms, root, i);
    if i < MAX_SDIST_MEMBERS && ms[i].kind != LinkOrSpecial && RawName(ms[i]) == "." { assert DotReached(ms, root, i); }
  }

  lemma NoDotAtAll(ms: seq<Member>, root: string)
    requires Acceptable(Items(ms, root))
    ensures !exists k: nat :: DotReached(ms, root, k)
  {
    hide Acceptable, Items, RawName;
    assert Items(ms, root)[..|ms|] == Items(ms, root);
    NoDotBefore(ms, root, |ms|);
  }

  /** `tar czf archive .` writes such a member first, whatever the expected root and the other members are. */
  lemma DotArchive(rest: seq<Member>, root: string)
    ensures DotReached([Member("./", DirectoryMember, 0, [])] + rest, root, 0)
    ensures DotReached([Member(".", DirectoryMember, 0, [])] + rest, root, 0)
  {
    assert "./"[1..] == "/" && "./"[..1] == ".";
    assert RawName(Member("./", DirectoryMember, 0, [])) == ".";
    forall m | m in {Member("./", DirectoryMember, 0, []), Member(".", DirectoryMember, 0, [])}
      ensures DotReached([m] + rest, root, 0)
    {
      assert Items([m] + rest, root)[..0] == [];
      assert ([m] + rest)[0] == m;
    }
  }

  method InspectMembers(ms: seq<Member>, root: string, sha256: bytes -> string) returns (r: Result<Inspection, SdistError>)
    ensures r.Ok? <==> Acceptable(Items(ms, root))
    ensures r.Ok? ==> Reports(r.value, Items(ms, root), sha256)
    ensures r == Err(NoPathParts) <==> exists i: nat :: DotReached(ms, root, i)
    ensures r != Err(PkgInfoCount)
  {
    hide *;
    var canonicalMembers: set<string> := {};
    var seen := Inspection([], map[], map[], [], 0, 0, 0, 0);
    ghost var ts := Items(ms, root);
    ItemsAreSound(ms, root);
    Start(ts, sha256);
    for i := 0 to |ms|
      invariant Progress(ts, i, seen, canonicalMembers, sha256)
    {
      var member := ms[i];
      Counted(ts, i, seen, canonicalMembers, sha256);
      if seen.memberCount + 1 > MAX_SDIST_MEMBERS {
        Refused(ts, root, i, seen, canonicalMembers, sha256);
        DotOnlyHere(ms, root, i, seen, canonicalMembers, sha256);
        return Err(TooManyMembers);
      }
      ItemAt(ms, root, i);
      var checked := CheckMember(member, root, canonicalMembers);
      if checked.Err? {
        Refused(ts, root, i, seen, canonicalMembers, sha256);
        DotOnlyHere(ms, root, i, seen, canonicalMembers, sha256);
        return Err(checked.error);
      }
      if member.kind == DirectoryMember {
        DirectoryStep(ts, i, seen, canonicalMembers, sha256);
        seen := WithDirectory(seen);
      } else {
        if seen.fileBytes + member.size > MAX_SDIST_UNCOMPRESSED_BYTES {
          Refused(ts, root, i, seen, canonicalMembers, sha256);
          DotOnlyHere(ms, root, i, seen, canonicalMembers, sha256);
          return Err(TotalTooLarge);
        }
        if |member.data| < member.size {
          Refused(ts, root, i, seen, canonicalMembers, sha256);
          DotOnlyHere(ms, root, i, seen, canonicalMembers, sha256);
          return Err(Truncated);
        }
        FileStep(ts, root, i, seen, canonicalMembers, sha256);
        seen := WithFile(seen, Join(checked.value.relative), member.size, member.data[..member.size], sha256);
      }
      canonicalMembers := canonicalMembers + {checked.value.canonicalName};
    }
    Counted(ts, |ms|, seen, canonicalMembers, sha256);
    NoDotAtAll(ms, root);
    r := Ok(seen);
  }

  // ---------- The batch check ----------

  /** Sum of a dictionary's values. */
  ghost function Sum(m: map<string, int>): int {
    if m == map[] then 0
    else
      var k :| k in m;
      m[k] + Sum(m - {k})
  }

  lemma {:induction false} SumWithout(m: map<string, int>, k: string)
    requires k in m
    ensures Sum(m) == m[k] + Sum(m - {k})
  {
    var j :| j in m && Sum(m) == m[j] + Sum(m - {j});
    if j != k {
      SumWithout(m - {j}, k);
      SumWithout(m - {k}, j);
      assert m - {j} - {k} == m - {k} - {j};
    }
  }

  /** `sum(member_sizes.values())`, one entry at a time. */
  method SumValues(m: map<string, int>) returns (total: int)
    ensures total == Sum(m)
  {
    total := 0;
    var rest := m;
    while rest != map[]
      invariant total + Sum(rest) == Sum(m)
      decreases |rest|
    {
      var k :| k in rest;
      SumWithout(rest, k);
      total := total + rest[k];
      rest := rest - {k};
    }
  }

  ghost predicate Repeats(paths: seq<string>) {
    exists i, j :: 0 <= i < j < |paths| && paths[i] == paths[j]
  }

  ghost predicate SizesOk(paths: seq<string>, sizes: map<string, int>) {
    && (forall p :: p in sizes <==> p in paths)
    && (forall p :: p in sizes ==> 0 <= sizes[p] <= MAX_SDIST_MEMBER_BYTES)
    && Sum(sizes) <= MAX_SDIST_UNCOMPRESSED_BYTES
  }

  predicate PathOk(path: string) {
    SafeMemberPath(path).Some? && RelativeOk(SafeMemberPath(path).value, false)
  }

  predicate RequiredPresent(paths: seq<string>) {
    forall p :: p in RequiredSdistMembers() ==> p in paths
  }

  /** Every check of `validate_sdist_member_paths` but the last. */
  ghost predicate OtherwiseOk(paths: seq<string>, archiveSize: int, sizes: map<string, int>) {
    && archiveSize <= MAX_SDIST_BYTES && |paths| <= MAX_SDIST_MEMBERS && !Repeats(paths)
    && SizesOk(paths, sizes) && (forall p :: p in paths ==> PathOk(p))
  }

  /** The keys of `Counter(paths)`, unless some count exceeds one. */
  method CountPaths(paths: seq<string>) returns (counted: set<string>, repeats: bool)
    ensures repeats <==> Repeats(paths)
    ensures !repeats ==> forall p :: p in counted <==> p in paths
  {
    counted, repeats := {}, false;
    for i := 0 to |paths|
      invariant forall p :: p in counted <==> p in paths[..i]
      invariant !Repeats(paths[..i])
    {
      assert paths[..i + 1] == paths[..i] + [paths[i]];
      if paths[i] in counted {
        var j :| 0 <= j < i && paths[j] == paths[i];
        return counted, true;
      }
      counted := counted + {paths[i]};
    }
    assert paths[..|paths|] == paths;
  }

  method CheckPaths(paths: seq<string>) returns (r: Result<(), SdistError>)
    ensures r.Ok? <==> forall p :: p in paths ==> PathOk(p)
    ensures r.Err? ==> r.error == UnsafePath || r.error == UnapprovedPath
  {
    hide SafeMemberPath, RelativeOk;
    for i := 0 to |paths|
      invariant forall p :: p in paths[..i] ==> PathOk(p)
    {
      assert paths[..i + 1] == paths[..i] + [paths[i]];
      var path := SafeMemberPath(paths[i]);
      if path.None? {
        assert !PathOk(paths[i]);
        return Err(UnsafePath);
      }
      if !RelativeOk(path.value, false) {
        assert !PathOk(paths[i]);
        return Err(UnapprovedPath);
      }
    }
    assert paths[..|paths|] == paths;
    r := Ok(());
  }

  method ValidateSdistMemberPaths(paths: seq<string>, archiveSize: int, sizes: map<string, int>)
    returns (r: Result<(), SdistError>)
    ensures r.Ok? <==> OtherwiseOk(paths, archiveSize, sizes) && RequiredPresent(paths)
    ensures r == Err(MissingRequired) <==> OtherwiseOk(paths, archiveSize, sizes) && !RequiredPresent(paths)
    ensures r != Err(PkgInfoCount) && r != Err(NoPathParts)
  {
    hide PathOk, RequiredPresent, Repeats;
    if archiveSize > MAX_SDIST_BYTES {
      return Err(ArchiveTooLarge);
    }
    if |paths| > MAX_SDIST_MEMBERS {
      return Err(TooManyMembers);
    }
    var counted, repeats := CountPaths(paths);
    if repeats {
      return Err(DuplicateMember);
    }
    if sizes.Keys != counted {
      assert !SizesOk(paths, sizes);
      return Err(InventoryDiffers);
    }
    if p :| p in sizes && sizes[p] < 0 {
      return Err(InvalidSize);
    }
    if p :| p in sizes && sizes[p] > MAX_SDIST_MEMBER_BYTES {
      return Err(MemberTooLarge);
    }
    var uncompressed := SumValues(sizes);
    if uncompressed > MAX_SDIST_UNCOMPRESSED_BYTES {
      return Err(TotalTooLarge);
    }
    var checked := CheckPaths(paths);
    if checked.Err? {
      return checked;
    }
    if !RequiredPresent(paths) {
      return Err(MissingRequired);
    }
    r := Ok(());
  }

  // ---------- The loop makes the batch check redundant ----------

  lemma {:induction false} SizesOfItems(ts: seq<Item>, root: string, r: Inspection, sha256: bytes -> string)
    requires Acceptable(ts) && Sound(ts, root) && Reports(r, ts, sha256)
    ensures Sum(r.memberSizes) == FileBytes(ts)
    ensures forall n :: n in r.memberSizes ==> 0 <= r.memberSizes[n] <= MAX_SDIST_MEMBER_BYTES && PathOk(n)
  {
    forall n | n in r.memberSizes ensures 0 <= r.memberSizes[n] <= MAX_SDIST_MEMBER_BYTES && PathOk(n) {
      var k :| 0 <= k < |r.relativeFiles| && r.relativeFiles[k] == n;
      var i := FileNamesFrom(ts, k);
      assert Recorded(r, ts[i], sha256) && SoundFile(ts[i], root);
    }
    SumOfItems(ts, root, r.memberSizes);
  }

  lemma {:induction false} SumOfItems(ts: seq<Item>, root: string, sizes: map<string, int>)
    requires Acceptable(ts) && Sound(ts, root)
    requires forall n :: n in sizes <==> n in FileNames(ts)
    requires forall i :: 0 <= i < |ts| && IsFile(ts[i]) ==> ts[i].name in sizes && sizes[ts[i].name] == ts[i].size
    ensures Sum(sizes) == FileBytes(ts)
  {
    hide SoundFile, PathOk;
    if ts == [] {
      assert sizes == map[];
    } else {
      var n := |ts| - 1;
      var before, t := ts[..n], ts[n];
      assert Acceptable(before) && Sound(before, root) by {
        FewerItems(ts, root);
      }
      if IsFile(t) {
        assert ts[..n + 1] == ts;
        NewName(ts, root, n);
        var less := sizes - {t.name};
        forall i | 0 <= i < n && IsFile(before[i]) ensures before[i].name in less {
          FileNamesOf(before, i);
          assert ts[i] == before[i];
        }
        assert FileNames(ts) == FileNames(before) + [t.name];
        SumOfItems(before, root, less);
        SumWithout(sizes, t.name);
      } else {
        assert forall i :: 0 <= i < n ==> ts[i] == before[i];
        SumOfItems(before, root, sizes);
      }
    }
  }

  lemma FewerItems(ts: seq<Item>, root: string)
    requires ts != [] && Acceptable(ts) && Sound(ts, root)
    ensures Acceptable(ts[..|ts| - 1]) && Sound(ts[..|ts| - 1], root)
  {
    hide SoundFile;
    var n := |ts| - 1;
    SizesNonNegative(ts, root);
    FileBytesGrow(ts, n);
    assert forall i :: 0 <= i < n ==> ts[..n][i] == ts[i];
  }

  /** For every archive that passes the loop, every check of the batch validator but the last one holds: it
      can refuse only for a missing required member. */
  lemma BatchCheckIsRedundant(ms: seq<Member>, root: string, archiveSize: int, r: Inspection, sha256: bytes -> string)
    requires archiveSize <= MAX_SDIST_BYTES
    requires Acceptable(Items(ms, root)) && Reports(r, Items(ms, root), sha256)
    ensures OtherwiseOk(r.relativeFiles, archiveSize, r.memberSizes)
  {
    hide Items, Sound, PathOk;
    var ts := Items(ms, root);
    ItemsAreSound(ms, root);
    SizesOfItems(ts, root, r, sha256);
    FileNamesDistinct(ts, root);
    CountsAddUp(ts);
  }

  lemma {:induction false} PkgInfosCount(ts: seq<Item>)
    ensures |PkgInfos(ts)| == multiset(FileNames(ts))["PKG-INFO"]
  {
    if ts != [] {
      PkgInfosCount(ts[..|ts| - 1]);
    }
  }

  lemma {:induction false} DistinctOccursOnce(names: seq<string>, n: string)
    requires forall i, j :: 0 <= i < j < |names| ==> names[i] != names[j]
    ensures multiset(names)[n] == if n in names then 1 else 0
  {
    if names != [] {
      var last := |names| - 1;
      DistinctOccursOnce(names[..last], n);
      assert names == names[..last] + [names[last]];
    }
  }

  lemma LargestWithinSum(ts: seq<Item>, root: string, r: Inspection)
    requires Acceptable(ts) && Sound(ts, root) && ReportsLists(r, ts) && ReportsLargest(r, ts)
    ensures 0 <= r.largestMember <= r.fileBytes
  {
    hide SafeMemberPath, RelativeOk, SoundFile;
    SizesNonNegative(ts, root);
    FileBytesGrow(ts, 0);
    if r.largestMember != 0 {
      var i :| 0 <= i < |ts| && IsFile(ts[i]) && ts[i].size == r.largestMember;
      OneOfSum(ts, i);
    }
  }

  lemma OneOfSum(ts: seq<Item>, i: nat)
    requires i < |ts| && IsFile(ts[i]) && forall k :: 0 <= k < |ts| && IsFile(ts[k]) ==> 0 <= ts[k].size
    ensures ts[i].size <= FileBytes(ts)
  {
    assert ts[..i + 1][..i] == ts[..i] && ts[..i + 1][i] == ts[i];
    FileBytesGrow(ts, i + 1);
    FileBytesGrow(ts, i);
  }

  /** After that the count of PKG-INFO payloads is exactly one, and the reported counts add up. */
  lemma PkgInfoIsUnique(ms: seq<Member>, root: string, r: Inspection, sha256: bytes -> string)
    requires Acceptable(Items(ms, root)) && Reports(r, Items(ms, root), sha256) && RequiredPresent(r.relativeFiles)
    ensures |r.metadataPayloads| == 1
    ensures r.memberCount == r.directoryCount + |r.relativeFiles|
    ensures 0 <= r.largestMember <= r.fileBytes
  {
    var ts := Items(ms, root);
    ItemsAreSound(ms, root);
    CountsAddUp(ts);
    FileNamesDistinct(ts, root);
    PkgInfosCount(ts);
    DistinctOccursOnce(FileNames(ts), "PKG-INFO");
    assert "PKG-INFO" in RequiredSdistMembers();
    LargestWithinSum(ts, root, r);
  }

  // ---------- The whole inspection ----------

  datatype Evidence = Evidence(
    bytesInArchive: int, directoryMembers: nat, fileMembers: nat, largestUncompressedMember: int,
    memberCount: nat, uncompressedFileBytes: int)

  datatype Report = Report(evidence: Evidence, sourceManifest: map<string, string>, metadata: bytes)

  ghost predicate EvidenceSays(e: Evidence, archiveSize: int, ts: seq<Item>) {
    && e.bytesInArchive == archiveSize
    && e.memberCount == |ts| == e.directoryMembers + e.fileMembers && e.fileMembers == |FileNames(ts)|
    && e.largestUncompressedMember <= e.uncompressedFileBytes == FileBytes(ts)
    && (forall i :: 0 <= i < |ts| && IsFile(ts[i]) ==> ts[i].size <= e.largestUncompressedMember)
    && (e.largestUncompressedMember == 0 ||
        exists i :: 0 <= i < |ts| && IsFile(ts[i]) && ts[i].size == e.largestUncompressedMember)
  }

  /** Every reported number, the manifest and the metadata are those of the archive's members. */
  ghost predicate ReportSays(report: Report, archiveSize: int, ts: seq<Item>, sha256: bytes -> string) {
    && EvidenceSays(report.evidence, archiveSize, ts)
    && PkgInfos(ts) == [report.metadata]
    && (forall n :: n in report.sourceManifest <==> n in FileNames(ts) && n != "PKG-INFO")
    && (forall i :: 0 <= i < |ts| && IsFile(ts[i]) && ts[i].name != "PKG-INFO" ==>
          ts[i].name in report.sourceManifest && report.sourceManifest[ts[i].name] == sha256(ts[i].payload))
  }

  /** `_inspect_sdist_contents` up to the parsing of the metadata: an archive is accepted exactly when its size
      is allowed, every member passes the loop, and the required members are there. */
  method InspectSdistContents(archiveSize: int, ms: seq<Member>, root: string, sha256: bytes -> string)
    returns (r: Result<Report, SdistError>)
    ensures r.Ok? <==> archiveSize <= MAX_SDIST_BYTES && Acceptable(Items(ms, root)) && RequiredPresent(FileNames(Items(ms, root)))
    ensures r.Ok? ==> ReportSays(r.value, archiveSize, Items(ms, root), sha256)
    ensures r == Err(NoPathParts) <==> archiveSize <= MAX_SDIST_BYTES && exists i: nat :: DotReached(ms, root, i)
    ensures archiveSize <= MAX_SDIST_BYTES && Acceptable(Items(ms, root)) && r.Err? ==> r.error == MissingRequired
    ensures r != Err(PkgInfoCount)
  {
    hide Items, RequiredPresent, OtherwiseOk, DotReached, Acceptable;
    if archiveSize > MAX_SDIST_BYTES {
      return Err(ArchiveTooLarge);
    }
    var inspected := InspectMembers(ms, root, sha256);
    if inspected.Err? {
      return Err(inspected.error);
    }
    var seen := inspected.value;
    NoDotAtAll(ms, root);
    BatchCheckIsRedundant(ms, root, archiveSize, seen, sha256);
    var batch := ValidateSdistMemberPaths(seen.relativeFiles, archiveSize, seen.memberSizes);
    if batch.Err? {
      return Err(batch.error);
    }
    PkgInfoIsUnique(ms, root, seen, sha256);
    if |seen.metadataPayloads| != 1 {
      return Err(PkgInfoCount);
    }
    ghost var ts := Items(ms, root);
    assert forall i :: 0 <= i < |ts| && IsFile(ts[i]) ==> Recorded(seen, ts[i], sha256);
    r := Ok(Report(
      Evidence(archiveSize, seen.directoryCount, |seen.relativeFiles|, seen.largestMember, seen.memberCount, seen.fileBytes),
      seen.sourceManifest, seen.metadataPayloads[0]));
  }
}
