/** `release_check.main` with `--evidence`: invalidate the old evidence, check, and publish the new one.
    Any number of runs share one evidence path and one repository whose HEAD may move at any time. */
module ReleaseEvidence {
  import opened Bytes

  // ---------- State ----------

  datatype Entry = File(id: nat) | Directory | Special

  datatype MaybeEntry = Absent | Present(entry: Entry)

  /** The evidence path and the files behind it. Staged files have no name until they are linked. */
  datatype Disk = Disk(path: MaybeEntry, files: map<nat, bytes>)

  datatype Commit = Commit(revision: string, tree: string)

  datatype Repository = Repository(head: Commit, clean: bool)

  datatype Options = Options(evidence: bool, inventory: bool, distributionOnly: bool)

  datatype Why =
    | Refused             // a check of the program itself said no
    | Fault               // an operating-system call failed
    | DurabilityUnknown   // the directory could not be synced after the evidence became visible
    | CloseFailed         // a descriptor could not be closed after that

  datatype Phase =
    | Begin
    | InvalidateOpen | InvalidateStat | InvalidateUnlink | InvalidateSync
    | ReadOptions | WriteInventory
    | CaptureHead | CaptureClean | CaptureRecheck | CaptureReclean
    | LocalCheck | HostedCheck
    | FinalHead | FinalClean
    | Stage | Write | SyncStaged | LinkStaged
    | LookOpen | LookStat | LookRead | LookEntry | LookAgain | LookFinal
    | SyncDirectory | Close
    | ExitOk
    | ExitFailed(why: Why)
    | Killed

  datatype Run = Run(
    phase: Phase, options: Options, content: bytes, invalidated: bool, captured: Commit,
    staged: bool, file: nat, written: nat, linked: bool,
    seen: nat, links: nat, first: bytes, entryFile: nat, entryLinks: nat, second: bytes)

  datatype State = State(disk: Disk, repo: Repository, runs: seq<Run>)

  ghost predicate Ended(p: Phase) { p.ExitOk? || p.ExitFailed? || p.Killed? }

  /** Link count of a file, counting the evidence path only. */
  ghost function Links(d: Disk, id: nat): nat { if d.path == Present(File(id)) then 1 else 0 }

  ghost predicate Fails(r: Run, r': Run, why: Why) { r' == r.(phase := ExitFailed(why)) }

  ghost predicate Goes(r: Run, r': Run, phase: Phase) { r' == r.(phase := phase) }

  // ---------- Steps that leave the disk alone ----------

  /** `_invalidate_release_evidence`, apart from the removal itself. */
  ghost predicate Invalidating(d: Disk, r: Run, r': Run) {
    match r.phase
    case Begin => Goes(r, r', if r.options.evidence then InvalidateOpen else ReadOptions)
    case InvalidateOpen => Goes(r, r', InvalidateStat) || Fails(r, r', Fault)
    case InvalidateStat =>
      || Fails(r, r', Fault)
      || (d.path == Absent && r' == r.(phase := ReadOptions, invalidated := true))
      || (d.path == Present(Directory) && Fails(r, r', Refused))
      || (d.path.Present? && d.path.entry != Directory && Goes(r, r', InvalidateUnlink))
    case InvalidateUnlink => Fails(r, r', Fault)
    case InvalidateSync => Goes(r, r', ReadOptions) || Fails(r, r', Fault)
    case _ => false
  }

  ghost predicate Deciding(r: Run, r': Run) {
    match r.phase
    case ReadOptions =>
      if r.options.inventory then
        if r.options.evidence then Fails(r, r', Refused) else Goes(r, r', WriteInventory)
      else if r.options.distributionOnly && r.options.evidence then Fails(r, r', Refused)
      else Goes(r, r', if r.options.evidence then CaptureHead else LocalCheck)
    case WriteInventory => Goes(r, r', ExitOk) || Fails(r, r', Fault)
    case _ => false
  }

  /** `_capture_git_source_snapshot`, the checks themselves, and `_revalidate_git_source_snapshot`. */
  ghost predicate Checking(g: Repository, r: Run, r': Run) {
    match r.phase
    case CaptureHead => r' == r.(phase := CaptureClean, captured := g.head) || Fails(r, r', Refused)
    case CaptureClean => (g.clean && Goes(r, r', CaptureRecheck)) || Fails(r, r', Refused)
    case CaptureRecheck => (g.head == r.captured && Goes(r, r', CaptureReclean)) || Fails(r, r', Refused)
    case CaptureReclean => (g.clean && Goes(r, r', LocalCheck)) || Fails(r, r', Refused)
    case LocalCheck =>
      || Fails(r, r', Refused)
      || Goes(r, r', if !r.options.distributionOnly then HostedCheck else if r.options.evidence then FinalHead else ExitOk)
    case HostedCheck => Fails(r, r', Refused) || Goes(r, r', if r.options.evidence then FinalHead else ExitOk)
    case FinalHead => (g.head == r.captured && Goes(r, r', FinalClean)) || Fails(r, r', Refused)
    case FinalClean => (g.clean && Goes(r, r', Stage)) || Fails(r, r', Refused)
    case _ => false
  }

  /** `_publish_release_evidence`, apart from the steps that change the disk. */
  ghost predicate Publishing(d: Disk, r: Run, r': Run) {
    match r.phase
    case Stage => Fails(r, r', Fault)
    case Write => Fails(r, r', Fault) || (r.written == |r.content| && Goes(r, r', SyncStaged))
    case SyncStaged => Goes(r, r', LinkStaged) || Fails(r, r', Fault)
    case LinkStaged => Fails(r, r', Fault) || (d.path.Present? && Goes(r, r', LookOpen))
    case SyncDirectory => Goes(r, r', Close) || Fails(r, r', DurabilityUnknown)
    case Close => Goes(r, r', ExitOk) || Fails(r, r', CloseFailed)
    case _ => false
  }

  /** `_read_existing_release_evidence`, entered when the path already has an entry. */
  ghost predicate Examining(d: Disk, r: Run, r': Run) {
    match r.phase
    case LookOpen =>
      || Fails(r, r', Refused)
      || (d.path.Present? && d.path.entry.File? && r' == r.(phase := LookStat, seen := d.path.entry.id))
    case LookStat =>
      || Fails(r, r', Refused)
      || (r.seen in d.files && |d.files[r.seen]| == |r.content| &&
          r' == r.(phase := LookRead, links := Links(d, r.seen)))
    case LookRead => r.seen in d.files && r' == r.(phase := LookEntry, first := d.files[r.seen])
    case LookEntry =>
      || Fails(r, r', Refused)
      || (d.path.Present? && d.path.entry.File? &&
          r' == r.(phase := LookAgain, entryFile := d.path.entry.id, entryLinks := Links(d, d.path.entry.id)))
    case LookAgain => r.seen in d.files && r' == r.(phase := LookFinal, second := d.files[r.seen])
    case LookFinal =>
      if r.links == Links(d, r.seen) == r.entryLinks && r.entryFile == r.seen && r.first == r.content == r.second
      then Goes(r, r', SyncDirectory) else Fails(r, r', Refused)
    case _ => false
  }

  ghost predicate Quiet(d: Disk, g: Repository, r: Run, r': Run) {
    || Invalidating(d, r, r') || Deciding(r, r') || Checking(g, r, r') || Publishing(d, r, r') || Examining(d, r, r')
  }

  // ---------- Steps that change the disk ----------

  ghost predicate RemoveOld(d: Disk, r: Run, d': Disk, r': Run) {
    && r.phase == InvalidateUnlink && d.path.Present? && d.path.entry != Directory
    && d' == d.(path := Absent) && r' == r.(phase := InvalidateSync, invalidated := true)
  }

  /** `O_TMPFILE`: a new empty file without a name. */
  ghost predicate StageFile(d: Disk, r: Run, d': Disk, r': Run) {
    && r.phase == Stage && r'.file !in d.files
    && d' == d.(files := d.files[r'.file := []])
    && r' == r.(phase := Write, staged := true, file := r'.file, written := 0)
  }

  ghost predicate WriteSome(d: Disk, r: Run, d': Disk, r': Run) {
    && r.phase == Write && r.written < r'.written <= |r.content|
    && d' == d.(files := d.files[r.file := r.content[..r'.written]])
    && r' == r.(written := r'.written)
  }

  ghost predicate LinkFile(d: Disk, r: Run, d': Disk, r': Run) {
    && r.phase == LinkStaged && d.path == Absent
    && d' == d.(path := Present(File(r.file)))
    && r' == r.(phase := SyncDirectory, linked := true)
  }

  ghost predicate RunStep(d: Disk, g: Repository, r: Run, d': Disk, r': Run) {
    || (d' == d && Quiet(d, g, r, r'))
    || (d' == d && !Ended(r.phase) && Goes(r, r', Killed))
    || RemoveOld(d, r, d', r') || StageFile(d, r, d', r') || WriteSome(d, r, d', r') || LinkFile(d, r, d', r')
  }

  ghost predicate StepOf(s: State, s': State, p: nat) {
    && p < |s.runs| == |s'.runs| && s'.repo == s.repo
    && RunStep(s.disk, s.repo, s.runs[p], s'.disk, s'.runs[p])
    && forall q :: 0 <= q < |s.runs| && q != p ==> s'.runs[q] == s.runs[q]
  }

  /** The repository moves under the runs. */
  ghost predicate Outside(s: State, s': State) { s' == s.(repo := s'.repo) }

  ghost predicate Next(s: State, s': State) {
    Outside(s, s') || exists p: nat :: StepOf(s, s', p)
  }

  ghost predicate Initial(s: State) {
    && (s.disk.path.Present? && s.disk.path.entry.File? ==> s.disk.path.entry.id in s.disk.files)
    && forall p :: 0 <= p < |s.runs| ==>
         s.runs[p].phase == Begin && !s.runs[p].invalidated && !s.runs[p].staged && !s.runs[p].linked
  }

  ghost predicate StepAt(trace: seq<State>, i: nat)
    requires i < |trace| - 1
  {
    Next(trace[i], trace[i + 1])
  }

  ghost predicate Behaviour(trace: seq<State>) {
    trace != [] && Initial(trace[0]) && forall i :: 0 <= i < |trace| - 1 ==> StepAt(trace, i)
  }

  lemma BehaviourStep(trace: seq<State>, i: nat)
    requires Behaviour(trace) && i < |trace| - 1
    ensures Next(trace[i], trace[i + 1])
  {
    assert StepAt(trace, i);
  }

  // ---------- The invariant ----------

  /** The path shows exactly these bytes. */
  ghost predicate Shows(d: Disk, content: bytes) {
    d.path.Present? && d.path.entry.File? && d.path.entry.id in d.files && d.files[d.path.entry.id] == content
  }

  ghost predicate Staging(p: Phase) { p.Write? || p.SyncStaged? || p.LinkStaged? }

  ghost predicate Looking(p: Phase) {
    p.LookStat? || p.LookRead? || p.LookEntry? || p.LookAgain? || p.LookFinal?
  }

  ghost predicate BeforeStage(p: Phase) {
    || p.Begin? || p.InvalidateOpen? || p.InvalidateStat? || p.InvalidateUnlink? || p.InvalidateSync?
    || p.ReadOptions? || p.WriteInventory? || p.CaptureHead? || p.CaptureClean? || p.CaptureRecheck?
    || p.CaptureReclean? || p.LocalCheck? || p.HostedCheck? || p.FinalHead? || p.FinalClean? || p.Stage?
  }

  /** A file that no run will write again, complete for the run that wrote it. */
  ghost predicate Settled(d0: Disk, s: State, id: nat) {
    && id in s.disk.files
    && ((id in d0.files && s.disk.files[id] == d0.files[id]) ||
        exists p :: 0 <= p < |s.runs| && s.runs[p].staged && s.runs[p].file == id && s.runs[p].linked &&
                    s.disk.files[id] == s.runs[p].content)
  }

  ghost predicate RunOk(d0: Disk, d: Disk, r: Run) {
    && (r.staged ==> r.file in d.files && r.file !in d0.files && r.written <= |r.content| &&
                     d.files[r.file] == r.content[..r.written])
    && (Staging(r.phase) ==> r.staged && !r.linked)
    && (r.phase.SyncStaged? || r.phase.LinkStaged? || r.linked ==> r.staged && r.written == |r.content|)
    && (BeforeStage(r.phase) ==> !r.staged && !r.linked)
  }

  ghost predicate LookOk(d0: Disk, s: State, r: Run) {
    && (Looking(r.phase) ==> Settled(d0, s, r.seen))
    && (r.phase.LookEntry? || r.phase.LookAgain? || r.phase.LookFinal? ==> s.disk.files[r.seen] == r.first)
    && (r.phase.LookAgain? || r.phase.LookFinal? ==> r.entryLinks == 1)
  }

  ghost predicate Apart(r: Run, q: Run) { r.staged && q.staged ==> r.file != q.file }

  ghost predicate Inv(d0: Disk, s: State) {
    && (forall p :: 0 <= p < |s.runs| ==> RunOk(d0, s.disk, s.runs[p]))
    && (forall p :: 0 <= p < |s.runs| ==> LookOk(d0, s, s.runs[p]))
    && (forall p, q :: 0 <= p < |s.runs| && 0 <= q < |s.runs| && p != q ==> Apart(s.runs[p], s.runs[q]))
    && (forall f :: f in d0.files ==> f in s.disk.files && s.disk.files[f] == d0.files[f])
    && (s.disk.path.Present? && s.disk.path.entry.File? ==> Settled(d0, s, s.disk.path.entry.id))
    && (s.disk.path.Present? && !s.disk.path.entry.File? ==> s.disk.path == d0.path)
  }

  lemma SettledStays(d0: Disk, s: State, s': State, p: nat, id: nat)
    requires Inv(d0, s) && StepOf(s, s', p) && Settled(d0, s, id)
    ensures Settled(d0, s', id) && s'.disk.files[id] == s.disk.files[id]
  {
    var r := s.runs[p];
    assert RunOk(d0, s.disk, r);
    if id !in d0.files || s.disk.files[id] != d0.files[id] {
      var q :| 0 <= q < |s.runs| && s.runs[q].staged && s.runs[q].file == id && s.runs[q].linked &&
               s.disk.files[id] == s.runs[q].content;
      assert q != p ==> Apart(r, s.runs[q]);
      assert RunOk(d0, s.disk, s.runs[q]);
      assert s'.runs[q].linked && s'.runs[q].content == s.runs[q].content && s'.runs[q].file == id;
    }
  }

  ghost predicate SameFile(r: Run, r': Run) {
    r'.staged == r.staged && r'.file == r.file && r'.linked == r.linked && r'.content == r.content && r'.written == r.written
  }

  ghost predicate InInvalidation(p: Phase) { p.InvalidateOpen? || p.InvalidateStat? || p.InvalidateUnlink? }

  ghost predicate PastInvalidation(r: Run) {
    !InInvalidation(r.phase) && !(r.options.evidence && r.phase.Begin?)
  }

  lemma InvalidatingKeepsRun(d0: Disk, d: Disk, r: Run, r': Run)
    requires Invalidating(d, r, r') && RunOk(d0, d, r)
    ensures RunOk(d0, d, r') && SameFile(r, r')
    ensures !Looking(r'.phase)
  {
  }

  lemma DecidingKeepsRun(d0: Disk, d: Disk, r: Run, r': Run)
    requires Deciding(r, r') && RunOk(d0, d, r)
    ensures RunOk(d0, d, r') && SameFile(r, r')
    ensures PastInvalidation(r')
    ensures !Looking(r'.phase)
  {
  }

  lemma CheckingKeepsRun(d0: Disk, d: Disk, g: Repository, r: Run, r': Run)
    requires Checking(g, r, r') && RunOk(d0, d, r)
    ensures RunOk(d0, d, r') && SameFile(r, r')
    ensures PastInvalidation(r')
    ensures !Looking(r'.phase)
  {
  }

  lemma PublishingKeepsRun(d0: Disk, d: Disk, r: Run, r': Run)
    requires Publishing(d, r, r') && RunOk(d0, d, r)
    ensures RunOk(d0, d, r') && SameFile(r, r')
    ensures PastInvalidation(r')
    ensures !Looking(r'.phase)
  {
  }

  lemma ExaminingKeepsRun(d0: Disk, d: Disk, r: Run, r': Run)
    requires Examining(d, r, r') && RunOk(d0, d, r)
    ensures RunOk(d0, d, r') && SameFile(r, r')
    ensures PastInvalidation(r')
  {
  }

  lemma QuietKeepsRun(d0: Disk, d: Disk, g: Repository, r: Run, r': Run)
    requires Quiet(d, g, r, r') && RunOk(d0, d, r)
    ensures RunOk(d0, d, r') && SameFile(r, r')
    ensures Looking(r'.phase) ==> Examining(d, r, r')
  {
    if Invalidating(d, r, r') { InvalidatingKeepsRun(d0, d, r, r'); }
    else if Deciding(r, r') { DecidingKeepsRun(d0, d, r, r'); }
    else if Checking(g, r, r') { CheckingKeepsRun(d0, d, g, r, r'); }
    else if Publishing(d, r, r') { PublishingKeepsRun(d0, d, r, r'); }
    else { ExaminingKeepsRun(d0, d, r, r'); }
  }

  lemma MoverStaysOk(d0: Disk, d: Disk, g: Repository, r: Run, d': Disk, r': Run)
    requires RunStep(d, g, r, d', r') && RunOk(d0, d, r)
    requires forall f :: f in d0.files ==> f in d.files
    ensures RunOk(d0, d', r')
    ensures r'.content == r.content && (r.staged ==> r'.staged && r'.file == r.file)
    ensures r'.staged && !r.staged ==> r'.file !in d.files
  {
    if d' == d && Quiet(d, g, r, r') { QuietKeepsRun(d0, d, g, r, r'); }
  }

  /** A step writes at most the file its own run staged. */
  lemma StepWritesOwnFile(d: Disk, g: Repository, r: Run, d': Disk, r': Run)
    requires RunStep(d, g, r, d', r')
    ensures forall f :: f in d.files ==> f in d'.files && (d'.files[f] == d.files[f] || (r.phase.Write? && f == r.file))
  {
  }

  lemma RunsStayOk(d0: Disk, s: State, s': State, p: nat, q: nat)
    requires Inv(d0, s) && StepOf(s, s', p) && q < |s.runs|
    ensures RunOk(d0, s'.disk, s'.runs[q])
    ensures q != p ==> Apart(s'.runs[p], s'.runs[q])
  {
    assert RunOk(d0, s.disk, s.runs[p]) && RunOk(d0, s.disk, s.runs[q]);
    assert q != p ==> Apart(s.runs[p], s.runs[q]);
    MoverStaysOk(d0, s.disk, s.repo, s.runs[p], s'.disk, s'.runs[p]);
    StepWritesOwnFile(s.disk, s.repo, s.runs[p], s'.disk, s'.runs[p]);
  }

  lemma PathStaysOk(d0: Disk, s: State, s': State, p: nat)
    requires Inv(d0, s) && StepOf(s, s', p)
    ensures s'.disk.path.Present? && s'.disk.path.entry.File? ==> Settled(d0, s', s'.disk.path.entry.id)
    ensures s'.disk.path.Present? && !s'.disk.path.entry.File? ==> s'.disk.path == d0.path
  {
    if s.disk.path.Present? && s.disk.path.entry.File? {
      SettledStays(d0, s, s', p, s.disk.path.entry.id);
    }
    RunsStayOk(d0, s, s', p, p);
    var r' := s'.runs[p];
    if LinkFile(s.disk, s.runs[p], s'.disk, r') {
      assert RunOk(d0, s.disk, s.runs[p]);
      assert r'.content[..r'.written] == r'.content;
    }
  }

  /** What one look does, when nothing else moves. */
  lemma ExaminingLook(d0: Disk, s: State, r: Run, r': Run)
    requires Examining(s.disk, r, r') && LookOk(d0, s, r)
    requires s.disk.path.Present? && s.disk.path.entry.File? ==> Settled(d0, s, s.disk.path.entry.id)
    ensures LookOk(d0, s, r')
  {
    assert Looking(r'.phase) ==> (r'.seen == r.seen && Looking(r.phase)) || r.phase.LookOpen?;
  }

  lemma LooksStayOk(d0: Disk, s: State, s': State, p: nat, q: nat)
    requires Inv(d0, s) && StepOf(s, s', p) && q < |s.runs|
    ensures LookOk(d0, s', s'.runs[q])
  {
    var r, r' := s.runs[q], s'.runs[q];
    assert LookOk(d0, s, r);
    if q == p && s'.disk == s.disk && Quiet(s.disk, s.repo, r, r') {
      assert RunOk(d0, s.disk, r);
      QuietKeepsRun(d0, s.disk, s.repo, r, r');
      if Looking(r'.phase) { ExaminingLook(d0, s, r, r'); }
    }
    if Looking(r'.phase) { SettledStays(d0, s, s', p, r'.seen); }
  }

  lemma StepKeepsInv(d0: Disk, s: State, s': State)
    requires Inv(d0, s) && Next(s, s')
    ensures Inv(d0, s')
  {
    if Outside(s, s') {
      assert forall p :: 0 <= p < |s.runs| ==> s'.runs[p] == s.runs[p] && RunOk(d0, s.disk, s.runs[p]) && LookOk(d0, s, s.runs[p]);
    } else {
      var p: nat :| StepOf(s, s', p);
      forall q | 0 <= q < |s.runs|
        ensures RunOk(d0, s'.disk, s'.runs[q]) && LookOk(d0, s', s'.runs[q])
        ensures q != p ==> Apart(s'.runs[p], s'.runs[q]) && Apart(s'.runs[q], s'.runs[p])
      {
        RunsStayOk(d0, s, s', p, q);
        LooksStayOk(d0, s, s', p, q);
      }
      PathStaysOk(d0, s, s', p);
      forall a, b | 0 <= a < |s'.runs| && 0 <= b < |s'.runs| && a != b ensures Apart(s'.runs[a], s'.runs[b]) {
        if a != p && b != p { assert Apart(s.runs[a], s.runs[b]); }
      }
      RunsStayOk(d0, s, s', p, p);
      assert RunOk(d0, s.disk, s.runs[p]);
    }
  }

  lemma {:induction false} InvThroughout(trace: seq<State>, i: nat)
    requires Behaviour(trace) && i < |trace|
    ensures Inv(trace[0].disk, trace[i]) && |trace[i].runs| == |trace[0].runs|
  {
    if i > 0 {
      InvThroughout(trace, i - 1);
      BehaviourStep(trace, i - 1);
      StepKeepsInv(trace[0].disk, trace[i - 1], trace[i]);
    }
  }

  /** At every moment the path is absent, or as it was at the start, or holds every byte of one run. */
  lemma NeverPartial(trace: seq<State>, i: nat)
    requires Behaviour(trace) && i < |trace|
    ensures var s, d0 := trace[i], trace[0].disk;
      || s.disk.path == Absent
      || (s.disk.path.entry.File? && s.disk.path.entry.id in d0.files && Shows(s.disk, d0.files[s.disk.path.entry.id]))
      || (!s.disk.path.entry.File? && s.disk.path == d0.path)
      || exists p :: 0 <= p < |s.runs| && s.runs[p].linked && Shows(s.disk, s.runs[p].content)
  {
    InvThroughout(trace, i);
    var s, d0 := trace[i], trace[0].disk;
    if s.disk.path.Present? && s.disk.path.entry.File? && s.disk.path.entry.id !in d0.files {
      var p :| 0 <= p < |s.runs| && s.runs[p].linked && s.disk.files[s.disk.path.entry.id] == s.runs[p].content;
      assert Shows(s.disk, s.runs[p].content);
    }
  }

  // ---------- The stages of a run ----------

  ghost predicate Visible(p: Phase) { p.SyncDirectory? || p.Close? || p.ExitOk? }

  /** The stages of a run with evidence, in their order, up to exit status 0. */
  function StageOf(p: Phase): nat {
    match p
    case CaptureHead => 1
    case CaptureClean => 2
    case CaptureRecheck => 3
    case CaptureReclean => 4
    case LocalCheck => 5
    case HostedCheck => 6
    case FinalHead => 7
    case FinalClean => 8
    case Stage => 9
    case Write => 10
    case SyncStaged => 11
    case LinkStaged => 12
    case LookOpen => 12
    case LookStat => 12
    case LookRead => 12
    case LookEntry => 12
    case LookAgain => 12
    case LookFinal => 12
    case SyncDirectory => 13
    case Close => 14
    case ExitOk => 15
    case _ => 0
  }

  /** What the repository showed when the stage was passed, and where the run left it. */
  predicate StageShows(k: nat, g: Repository, captured: Commit, last: Phase) {
    && (k == 1 || k == 3 || k == 7 ==> g.head == captured)
    && (k == 2 || k == 4 || k == 8 ==> g.clean)
    && (k == 12 ==> last.LinkStaged? || last.LookFinal?)
  }

  lemma NothingShown(g: Repository, r: Run, captured: Commit)
    requires StageOf(r.phase) >= 9 && (r.phase.LinkStaged? || r.phase.LookFinal? || StageOf(r.phase) != 12)
    ensures StageShows(StageOf(r.phase), g, captured, r.phase)
  {
  }

  ghost predicate EvidenceRun(r: Run) {
    && r.options.evidence && !r.phase.WriteInventory?
    && (StageOf(r.phase) > 0 ==> !r.options.inventory && !r.options.distributionOnly)
  }

  /** A run with evidence ends, stays in its stage, or goes to the next one. */
  ghost predicate Climbs(g: Repository, r: Run, r': Run) {
    var k, k' := StageOf(r.phase), StageOf(r'.phase);
    && (k' <= 1 || k' == k || (k >= 1 && k' == k + 1 && StageShows(k, g, r'.captured, r.phase)))
    && (k' > 1 && !(k == 1 && k' == 2) ==> r'.captured == r.captured)
    && r'.content == r.content && r'.options == r.options && EvidenceRun(r')
  }

  /** How a run's evidence becomes visible. */
  ghost predicate Appears(d: Disk, r: Run, d': Disk, r': Run) {
    Visible(r'.phase) ==> Visible(r.phase) || (r.phase.LinkStaged? && LinkFile(d, r, d', r')) ||
                          (r.phase.LookFinal? && d' == d && Examining(d, r, r'))
  }

  lemma QuietAdvances(d: Disk, g: Repository, r: Run, r': Run)
    requires Quiet(d, g, r, r') && EvidenceRun(r)
    ensures Climbs(g, r, r') && Appears(d, r, d, r')
  {
    hide Climbs, Appears;
    if Invalidating(d, r, r') { InvalidatingAdvances(d, g, r, r'); }
    else if Deciding(r, r') { DecidingAdvances(d, g, r, r'); }
    else if Checking(g, r, r') { CheckingAdvances(d, g, r, r'); }
    else if Publishing(d, r, r') { PublishingAdvances(d, g, r, r'); }
    else { ExaminingAdvances(d, g, r, r'); }
  }

  lemma InvalidatingAdvances(d: Disk, g: Repository, r: Run, r': Run)
    requires Invalidating(d, r, r') && EvidenceRun(r)
    ensures Climbs(g, r, r') && Appears(d, r, d, r')
  {
    hide LinkFile, Examining, StageShows;
  }

  lemma DecidingAdvances(d: Disk, g: Repository, r: Run, r': Run)
    requires Deciding(r, r') && EvidenceRun(r)
    ensures Climbs(g, r, r') && Appears(d, r, d, r')
  {
    hide LinkFile, Examining, StageShows;
  }

  lemma CheckingAdvances(d: Disk, g: Repository, r: Run, r': Run)
    requires Checking(g, r, r') && EvidenceRun(r)
    ensures Climbs(g, r, r') && Appears(d, r, d, r')
  {
    hide LinkFile, Examining, Climbs;
    if r.phase.LocalCheck? || r.phase.HostedCheck? || r.phase.FinalHead? || r.phase.FinalClean? {
      LateChecksClimb(g, r, r');
    } else {
      EarlyChecksClimb(g, r, r');
    }
  }

  lemma EarlyChecksClimb(g: Repository, r: Run, r': Run)
    requires Checking(g, r, r') && EvidenceRun(r)
    requires !r.phase.LocalCheck? && !r.phase.HostedCheck? && !r.phase.FinalHead? && !r.phase.FinalClean?
    ensures Climbs(g, r, r')
  {
  }

  lemma LateChecksClimb(g: Repository, r: Run, r': Run)
    requires Checking(g, r, r') && EvidenceRun(r)
    requires r.phase.LocalCheck? || r.phase.HostedCheck? || r.phase.FinalHead? || r.phase.FinalClean?
    ensures Climbs(g, r, r')
  {
  }

  lemma PublishingAdvances(d: Disk, g: Repository, r: Run, r': Run)
    requires Publishing(d, r, r') && EvidenceRun(r)
    ensures Climbs(g, r, r') && Appears(d, r, d, r')
  {
    hide LinkFile, Examining, Climbs, StageShows, StageOf;
    PublishingClimbs(d, g, r, r');
  }

  lemma PublishingClimbs(d: Disk, g: Repository, r: Run, r': Run)
    requires Publishing(d, r, r') && EvidenceRun(r)
    ensures Climbs(g, r, r')
  {
    hide StageShows, Climbs, Publishing, EvidenceRun;
    PublishingStages(d, r, r');
    NothingShown(g, r, r'.captured);
    if r'.phase.ExitFailed? { FailureClimbs(g, r, r'); } else { StageClimbs(g, r, r'); }
  }

  lemma PublishingStages(d: Disk, r: Run, r': Run)
    requires Publishing(d, r, r')
    ensures r' == r.(phase := r'.phase) && StageOf(r.phase) >= 9
    ensures r.phase.LinkStaged? || StageOf(r.phase) != 12
    ensures r'.phase.ExitFailed? || StageOf(r.phase) <= StageOf(r'.phase) <= StageOf(r.phase) + 1
  {
  }

  lemma FailureClimbs(g: Repository, r: Run, r': Run)
    requires r'.phase.ExitFailed? && r' == r.(phase := r'.phase) && EvidenceRun(r)
    ensures Climbs(g, r, r')
  {
  }

  lemma StageClimbs(g: Repository, r: Run, r': Run)
    requires r' == r.(phase := r'.phase) && EvidenceRun(r) && StageShows(StageOf(r.phase), g, r'.captured, r.phase)
    requires 0 < StageOf(r.phase) <= StageOf(r'.phase) <= StageOf(r.phase) + 1
    ensures Climbs(g, r, r')
  {
    hide StageShows;
  }

  lemma ExaminingAdvances(d: Disk, g: Repository, r: Run, r': Run)
    requires Examining(d, r, r') && EvidenceRun(r)
    ensures Climbs(g, r, r') && Appears(d, r, d, r')
  {
    hide LinkFile, StageShows;
    if r.phase.LookFinal? { NothingShown(g, r, r'.captured); }
  }

  ghost predicate Advance(s: State, s': State, p: nat)
    requires p < |s.runs| && p < |s'.runs|
  {
    (Climbs(s.repo, s.runs[p], s'.runs[p]) && Appears(s.disk, s.runs[p], s'.disk, s'.runs[p])) || s'.runs[p] == s.runs[p]
  }

  lemma StepAdvances(s: State, s': State, p: nat)
    requires Next(s, s') && p < |s.runs| && EvidenceRun(s.runs[p])
    ensures p < |s'.runs| && Advance(s, s', p)
  {
    hide Invalidating, Deciding, Checking, Publishing, Examining, StageShows;
    if !Outside(s, s') {
      var q: nat :| StepOf(s, s', q);
      if q == p && s'.disk == s.disk && Quiet(s.disk, s.repo, s.runs[p], s'.runs[p]) {
        QuietAdvances(s.disk, s.repo, s.runs[p], s'.runs[p]);
      } else if q == p && (s.runs[p].phase.Stage? || s.runs[p].phase.LinkStaged?) {
        NothingShown(s.repo, s.runs[p], s'.runs[p].captured);
      }
    }
  }

  lemma {:induction false} RunBefore(trace: seq<State>, i: nat, n: nat, p: nat)
    requires Behaviour(trace) && i <= n < |trace| && p < |trace[0].runs| && trace[0].runs[p].options.evidence
    ensures p < |trace[i].runs| && p < |trace[n].runs|
    ensures EvidenceRun(trace[n].runs[p]) && trace[n].runs[p].content == trace[i].runs[p].content
    decreases n
  {
    hide Inv, Next, Appears, StageShows;
    if n > 0 {
      InvThroughout(trace, n - 1);
      RunBefore(trace, if i == n then n - 1 else i, n - 1, p);
      BehaviourStep(trace, n - 1);
      StepAdvances(trace[n - 1], trace[n], p);
    }
  }

  /** Step `i` is taken with run `p` at this point of the pipeline. */
  ghost predicate At(trace: seq<State>, i: nat, p: nat, phase: Phase) {
    i < |trace| && p < |trace[i].runs| && trace[i].runs[p].phase == phase
  }

  // ---------- Success means: every stage was passed, and the bytes were visible after that ----------

  /** The last step of a run with evidence. */
  lemma LastStep(trace: seq<State>, n: nat, p: nat)
    requires Behaviour(trace) && n < |trace| && p < |trace[0].runs| == |trace[n].runs|
    requires trace[0].runs[p].options.evidence && StageOf(trace[n].runs[p].phase) > 0
    ensures n > 0 && |trace[n - 1].runs| == |trace[n].runs| && EvidenceRun(trace[n - 1].runs[p])
    ensures Climbs(trace[n - 1].repo, trace[n - 1].runs[p], trace[n].runs[p]) || trace[n].runs[p] == trace[n - 1].runs[p]
  {
    hide Inv, Next, Climbs, Appears;
    assert n > 0;
    RunBefore(trace, 0, n - 1, p);
    InvThroughout(trace, n - 1);
    BehaviourStep(trace, n - 1);
    StepAdvances(trace[n - 1], trace[n], p);
  }

  /** The first stages were passed one after the other, `times` says when. */
  ghost predicate Passed(trace: seq<State>, p: nat, times: seq<nat>, captured: Commit) {
    && (forall i, j :: 0 <= i < j < |times| ==> times[i] < times[j])
    && forall i :: 0 <= i < |times| ==> PassedAt(trace, p, i + 1, times[i], captured)
  }

  ghost predicate PassedAt(trace: seq<State>, p: nat, k: nat, t: nat, captured: Commit) {
    && t < |trace| && p < |trace[t].runs|
    && StageOf(trace[t].runs[p].phase) == k && StageShows(k, trace[t].repo, captured, trace[t].runs[p].phase)
  }

  lemma {:induction false} StagesPassed(trace: seq<State>, n: nat, p: nat) returns (times: seq<nat>)
    requires Behaviour(trace) && n < |trace| && p < |trace[0].runs| == |trace[n].runs|
    requires trace[0].runs[p].options.evidence && StageOf(trace[n].runs[p].phase) > 0
    ensures |times| == StageOf(trace[n].runs[p].phase) - 1 && Passed(trace, p, times, trace[n].runs[p].captured)
    ensures forall i :: 0 <= i < |times| ==> times[i] < n
  {
    hide Behaviour, EvidenceRun, StageShows;
    var k := StageOf(trace[n].runs[p].phase);
    if k == 1 {
      times := [];
    } else {
      LastStep(trace, n, p);
      var before := StagesPassed(trace, n - 1, p);
      if StageOf(trace[n - 1].runs[p].phase) == k {
        times := before;
      } else if k == 2 {
        times := [n - 1];
      } else {
        times := before + [n - 1];
      }
    }
  }

  /** What a run with evidence has seen before it publishes: HEAD read as one commit at `c` and `f`, tracked files clean
      each time after that at `s` and `e`, and both checks in between at `i` and `j`. */
  ghost predicate Checked(trace: seq<State>, p: nat, c: nat, s: nat, i: nat, j: nat, f: nat, e: nat) {
    && c < s < i < j < f < e < |trace|
    && trace[c].repo.head == trace[f].repo.head && trace[s].repo.clean && trace[e].repo.clean
    && At(trace, c, p, CaptureHead) && At(trace, s, p, CaptureReclean)
    && At(trace, i, p, LocalCheck) && At(trace, j, p, HostedCheck)
    && At(trace, f, p, FinalHead) && At(trace, e, p, FinalClean)
    && exists a, b :: RecheckedAt(trace, p, c, a, b, s)
  }

  /** Between the first reading and its last check, the tracked files were clean and HEAD was still the same. */
  ghost predicate RecheckedAt(trace: seq<State>, p: nat, c: nat, a: nat, b: nat, s: nat) {
    && c < a < b < s < |trace| && trace[a].repo.clean && trace[b].repo.head == trace[c].repo.head
    && At(trace, a, p, CaptureClean) && At(trace, b, p, CaptureRecheck)
  }

  lemma StageIs(p: Phase)
    ensures StageOf(p) == 1 ==> p == CaptureHead
    ensures StageOf(p) == 2 ==> p == CaptureClean
    ensures StageOf(p) == 3 ==> p == CaptureRecheck
    ensures StageOf(p) == 4 ==> p == CaptureReclean
    ensures StageOf(p) == 5 ==> p == LocalCheck
    ensures StageOf(p) == 6 ==> p == HostedCheck
    ensures StageOf(p) == 7 ==> p == FinalHead
    ensures StageOf(p) == 8 ==> p == FinalClean
  {
  }

  lemma AllStages(trace: seq<State>, p: nat, times: seq<nat>, captured: Commit)
    requires |times| >= 8 && Passed(trace, p, times, captured)
    ensures Checked(trace, p, times[0], times[3], times[4], times[5], times[6], times[7])
  {
    hide StageOf;
    forall k | 0 <= k < 8 ensures PassedAt(trace, p, k + 1, times[k], captured) {
      StageIs(trace[times[k]].runs[p].phase);
    }
    StageIs(trace[times[0]].runs[p].phase);
    StageIs(trace[times[1]].runs[p].phase);
    StageIs(trace[times[2]].runs[p].phase);
    StageIs(trace[times[3]].runs[p].phase);
    StageIs(trace[times[4]].runs[p].phase);
    StageIs(trace[times[5]].runs[p].phase);
    StageIs(trace[times[6]].runs[p].phase);
    StageIs(trace[times[7]].runs[p].phase);
    assert RecheckedAt(trace, p, times[0], times[1], times[2], times[3]);
  }

  lemma ChecksPassed(trace: seq<State>, n: nat, p: nat) returns (c: nat, s: nat, i: nat, j: nat, f: nat, e: nat)
    requires Behaviour(trace) && n < |trace| && p < |trace[0].runs| == |trace[n].runs|
    requires trace[0].runs[p].options.evidence && StageOf(trace[n].runs[p].phase) >= 9
    ensures Checked(trace, p, c, s, i, j, f, e) && e < n
  {
    hide Passed, Checked, StageOf;
    var times := StagesPassed(trace, n, p);
    AllStages(trace, p, times, trace[n].runs[p].captured);
    c, s, i, j, f, e := times[0], times[3], times[4], times[5], times[6], times[7];
  }

  /** The step by which a run's evidence becomes visible leaves exactly its bytes at the path: by linking its
      own file, or by finding a settled file with equal bytes still linked there. */
  lemma BecomesVisible(d0: Disk, s: State, s': State, p: nat)
    requires Inv(d0, s) && Next(s, s') && p < |s.runs| && EvidenceRun(s.runs[p])
    requires p < |s'.runs| && Visible(s'.runs[p].phase) && !Visible(s.runs[p].phase)
    ensures Shows(s'.disk, s.runs[p].content) && StageOf(s.runs[p].phase) >= 9
  {
    StepAdvances(s, s', p);
    assert RunOk(d0, s.disk, s.runs[p]) && LookOk(d0, s, s.runs[p]);
    var r := s.runs[p];
    if r.phase.LinkStaged? {
      assert r.content[..r.written] == r.content;
    }
  }

  lemma {:induction false} VisibleWitness(trace: seq<State>, n: nat, p: nat)
    returns (c: nat, s: nat, i: nat, j: nat, f: nat, e: nat, m: nat)
    requires Behaviour(trace) && n < |trace| && p < |trace[0].runs| == |trace[n].runs|
    requires trace[0].runs[p].options.evidence && Visible(trace[n].runs[p].phase)
    ensures Checked(trace, p, c, s, i, j, f, e) && e < m <= n
    ensures Shows(trace[m].disk, trace[n].runs[p].content)
    ensures |trace[m - 1].runs| == |trace[n].runs| && !Visible(trace[m - 1].runs[p].phase)
    ensures forall k :: m <= k <= n ==> |trace[k].runs| == |trace[n].runs| && Visible(trace[k].runs[p].phase)
  {
    hide Checked, At, Shows, RunOk, LookOk, Climbs, Next, StageOf, Appears, EvidenceRun, Settled, Apart;
    assert n > 0;
    RunBefore(trace, 0, n - 1, p);
    RunBefore(trace, n - 1, n, p);
    InvThroughout(trace, n - 1);
    BehaviourStep(trace, n - 1);
    if Visible(trace[n - 1].runs[p].phase) {
      c, s, i, j, f, e, m := VisibleWitness(trace, n - 1, p);
    } else {
      BecomesVisible(trace[0].disk, trace[n - 1], trace[n], p);
      c, s, i, j, f, e := ChecksPassed(trace, n - 1, p);
      m := n;
    }
  }

  /** Exit status 0 with `--evidence`, among any other runs and invalidations: HEAD was read as the same commit at the
      start and again before publishing, each time the tracked files were clean afterwards, the local and the hosted
      checks were passed in between, and after all that the path showed exactly this run's bytes. */
  lemma SuccessIsJustified(trace: seq<State>, n: nat, p: nat) returns (c: nat, s: nat, i: nat, j: nat, f: nat, e: nat, m: nat)
    requires Behaviour(trace) && n < |trace| && p < |trace[0].runs| == |trace[n].runs|
    requires trace[0].runs[p].options.evidence && trace[n].runs[p].phase == ExitOk
    ensures Checked(trace, p, c, s, i, j, f, e) && e < m <= n
    ensures Shows(trace[m].disk, trace[n].runs[p].content)
  {
    c, s, i, j, f, e, m := VisibleWitness(trace, n, p);
  }

  // ---------- Concurrent publishers, once nobody invalidates any more ----------

  /** No run with evidence is still before or in its invalidation. */
  ghost predicate Settling(s: State) {
    forall p :: 0 <= p < |s.runs| ==> PastInvalidation(s.runs[p])
  }

  lemma QuietStaysPast(d0: Disk, d: Disk, g: Repository, r: Run, r': Run)
    requires Quiet(d, g, r, r') && RunOk(d0, d, r) && PastInvalidation(r)
    ensures PastInvalidation(r')
  {
    if Deciding(r, r') { DecidingKeepsRun(d0, d, r, r'); }
    else if Checking(g, r, r') { CheckingKeepsRun(d0, d, g, r, r'); }
    else if Publishing(d, r, r') { PublishingKeepsRun(d0, d, r, r'); }
    else if Examining(d, r, r') { ExaminingKeepsRun(d0, d, r, r'); }
    else { InvalidatingStaysPast(d, r, r'); }
  }

  lemma InvalidatingStaysPast(d: Disk, r: Run, r': Run)
    requires Invalidating(d, r, r') && PastInvalidation(r)
    ensures PastInvalidation(r')
  {
  }

  lemma StepKeepsPath(d0: Disk, s: State, s': State)
    requires Inv(d0, s) && Next(s, s') && Settling(s)
    ensures Settling(s')
    ensures forall content :: Shows(s.disk, content) ==> Shows(s'.disk, content)
  {
    if !Outside(s, s') {
      var p: nat :| StepOf(s, s', p);
      var r, r' := s.runs[p], s'.runs[p];
      assert RunOk(d0, s.disk, r);
      if s'.disk == s.disk && Quiet(s.disk, s.repo, r, r') { QuietStaysPast(d0, s.disk, s.repo, r, r'); }
      if s.disk.path.Present? && s.disk.path.entry.File? { SettledStays(d0, s, s', p, s.disk.path.entry.id); }
    }
  }

  lemma {:induction false} PathKept(trace: seq<State>, i: nat, j: nat, content: bytes)
    requires Behaviour(trace) && i <= j < |trace| && Settling(trace[i])
    ensures Settling(trace[j]) && (Shows(trace[i].disk, content) ==> Shows(trace[j].disk, content))
    decreases j
  {
    hide *;
    if i < j {
      PathKept(trace, i, j - 1, content);
      InvThroughout(trace, j - 1);
      BehaviourStep(trace, j - 1);
      StepKeepsPath(trace[0].disk, trace[j - 1], trace[j]);
    }
  }

  /** Once no run can invalidate any more, a publisher that succeeds does so only with its own bytes visible,
      and they stay visible for ever. */
  lemma PublisherSeesOwnBytes(trace: seq<State>, a: nat, n: nat, k: nat, p: nat)
    requires Behaviour(trace) && a <= n <= k < |trace| && Settling(trace[a])
    requires p < |trace[0].runs| == |trace[a].runs| == |trace[n].runs| && trace[0].runs[p].options.evidence
    requires !Visible(trace[a].runs[p].phase) && trace[n].runs[p].phase == ExitOk
    ensures Shows(trace[k].disk, trace[n].runs[p].content)
  {
    var content := trace[n].runs[p].content;
    var c, s, i, j, f, e, m := VisibleWitness(trace, n, p);
    assert a < m;
    PathKept(trace, a, m, content);
    PathKept(trace, m, k, content);
  }

  /** Hence publishers that all succeed have published equal bytes. */
  lemma SuccessfulPublishersAgree(trace: seq<State>, a: nat, n: nat, p: nat, q: nat)
    requires Behaviour(trace) && a <= n < |trace| && Settling(trace[a])
    requires p < |trace[0].runs| && q < |trace[0].runs| && |trace[0].runs| == |trace[a].runs| == |trace[n].runs|
    requires trace[0].runs[p].options.evidence && trace[0].runs[q].options.evidence
    requires !Visible(trace[a].runs[p].phase) && trace[n].runs[p].phase == ExitOk
    requires !Visible(trace[a].runs[q].phase) && trace[n].runs[q].phase == ExitOk
    ensures trace[n].runs[p].content == trace[n].runs[q].content
  {
    PublisherSeesOwnBytes(trace, a, n, n, p);
    PublisherSeesOwnBytes(trace, a, n, n, q);
  }

  // ---------- One run alone: fail-stop ----------

  /** What the path holds while a single run is at each point of the pipeline. */
  ghost predicate AloneOk(d0: Disk, d: Disk, r: Run) {
    && (!r.options.evidence ==> !r.invalidated && !r.linked)
    && (!r.invalidated ==> d.path == d0.path && !r.linked)
    && (r.invalidated && !r.linked ==> d.path == Absent)
    && (r.linked ==> d.path == Present(File(r.file)))
    && (r.phase.Begin? || r.phase.InvalidateOpen? || r.phase.InvalidateStat? || r.phase.InvalidateUnlink? ==> !r.invalidated)
    && (r.phase.InvalidateOpen? || r.phase.InvalidateStat? || r.phase.InvalidateUnlink? || r.phase.InvalidateSync? ==> r.options.evidence)
    && (r.phase.InvalidateSync? ==> r.invalidated && !r.linked)
    && (r.phase.ReadOptions? && r.options.evidence ==> r.invalidated)
    && (r.phase.WriteInventory? ==> !r.options.evidence)
    && (StageOf(r.phase) > 0 ==>
          if r.options.evidence then r.invalidated
          else r.phase.LocalCheck? || r.phase.HostedCheck? || r.phase.ExitOk?)
    && (r.phase.CaptureHead? ==> r.options.evidence)
    && !Looking(r.phase) && !r.phase.LookOpen?
    && (r.options.evidence && Visible(r.phase) ==> r.linked)
    && (r.linked ==> Visible(r.phase) || r.phase.Killed? ||
                     r.phase == ExitFailed(DurabilityUnknown) || r.phase == ExitFailed(CloseFailed))
    && (r.phase == ExitFailed(DurabilityUnknown) || r.phase == ExitFailed(CloseFailed) ==> r.linked)
  }

  lemma QuietAlone(d0: Disk, d: Disk, g: Repository, r: Run, r': Run)
    requires Quiet(d, g, r, r') && AloneOk(d0, d, r)
    ensures AloneOk(d0, d, r')
  {
    if Invalidating(d, r, r') { InvalidatingAlone(d0, d, r, r'); }
    else if Deciding(r, r') { DecidingAlone(d0, d, r, r'); }
    else if Checking(g, r, r') { CheckingAlone(d0, d, g, r, r'); }
    else if Publishing(d, r, r') { PublishingAlone(d0, d, r, r'); }
    else { ExaminingNotAlone(d0, d, r, r'); }
  }

  lemma InvalidatingAlone(d0: Disk, d: Disk, r: Run, r': Run)
    requires Invalidating(d, r, r') && AloneOk(d0, d, r)
    ensures AloneOk(d0, d, r')
  {
  }

  lemma DecidingAlone(d0: Disk, d: Disk, r: Run, r': Run)
    requires Deciding(r, r') && AloneOk(d0, d, r)
    ensures AloneOk(d0, d, r')
  {
  }

  lemma CheckingAlone(d0: Disk, d: Disk, g: Repository, r: Run, r': Run)
    requires Checking(g, r, r') && AloneOk(d0, d, r)
    ensures AloneOk(d0, d, r')
  {
  }

  lemma PublishingAlone(d0: Disk, d: Disk, r: Run, r': Run)
    requires Publishing(d, r, r') && AloneOk(d0, d, r)
    ensures AloneOk(d0, d, r')
  {
  }

  lemma ExaminingNotAlone(d0: Disk, d: Disk, r: Run, r': Run)
    requires AloneOk(d0, d, r)
    ensures !Examining(d, r, r')
  {
  }

  lemma DiskStepAlone(d0: Disk, d: Disk, r: Run, d': Disk, r': Run)
    requires RemoveOld(d, r, d', r') || StageFile(d, r, d', r') || WriteSome(d, r, d', r') || LinkFile(d, r, d', r')
    requires AloneOk(d0, d, r)
    ensures AloneOk(d0, d', r')
  {
  }

  lemma KilledAlone(d0: Disk, d: Disk, r: Run, r': Run)
    requires Goes(r, r', Killed) && AloneOk(d0, d, r)
    ensures AloneOk(d0, d, r')
  {
  }

  lemma StepAlone(d0: Disk, s: State, s': State)
    requires Next(s, s') && |s.runs| == 1 && AloneOk(d0, s.disk, s.runs[0])
    ensures |s'.runs| == 1 && AloneOk(d0, s'.disk, s'.runs[0])
  {
    hide AloneOk, Quiet, Goes, RemoveOld, StageFile, WriteSome, LinkFile;
    if !Outside(s, s') {
      var p: nat :| StepOf(s, s', p);
      var r, r' := s.runs[0], s'.runs[0];
      if s'.disk == s.disk && Quiet(s.disk, s.repo, r, r') { QuietAlone(d0, s.disk, s.repo, r, r'); }
      else if s'.disk == s.disk && Goes(r, r', Killed) { KilledAlone(d0, s.disk, r, r'); }
      else { DiskStepAlone(d0, s.disk, r, s'.disk, r'); }
    }
  }

  lemma {:induction false} AloneThroughout(trace: seq<State>, n: nat)
    requires Behaviour(trace) && n < |trace| && |trace[0].runs| == 1
    ensures |trace[n].runs| == 1 && AloneOk(trace[0].disk, trace[n].disk, trace[n].runs[0])
  {
    if n > 0 {
      AloneThroughout(trace, n - 1);
      BehaviourStep(trace, n - 1);
      StepAlone(trace[0].disk, trace[n - 1], trace[n]);
    }
  }

  /** A run with no other writer is fail-stop. Success shows its bytes; a failure after invalidation leaves the
      path absent, except exactly when the directory sync or a close failed after the evidence was complete and
      visible; before invalidation, and without `--evidence`, the path is as it was. */
  lemma LoneRunFailStop(trace: seq<State>, n: nat)
    requires Behaviour(trace) && n < |trace| && |trace[0].runs| == 1
    ensures |trace[n].runs| == 1
    ensures var d0, d, r := trace[0].disk, trace[n].disk, trace[n].runs[0];
      && (r.phase == ExitOk && r.options.evidence ==> Shows(d, r.content))
      && (r.phase.ExitFailed? && r.invalidated ==>
            (d.path.Present? <==> r.phase.why == DurabilityUnknown || r.phase.why == CloseFailed) &&
            (d.path.Present? ==> Shows(d, r.content)))
      && (!r.invalidated ==> d.path == d0.path)
      && (!r.options.evidence ==> !r.invalidated)
      && (d.path == d0.path || d.path == Absent || Shows(d, r.content))
  {
    AloneThroughout(trace, n);
    InvThroughout(trace, n);
    var d, r := trace[n].disk, trace[n].runs[0];
    assert RunOk(trace[0].disk, d, r);
    if r.linked {
      assert r.content[..r.written] == r.content;
      assert Shows(d, r.content);
    }
  }

  // ---------- A failing exit with the evidence in place ----------

  /** The phases of an undisturbed run, up to the closing of its descriptors. */
  function PhaseAt(i: nat): Phase {
    if i == 0 then Begin else if i == 1 then InvalidateOpen else if i == 2 then InvalidateStat
    else if i == 3 then ReadOptions else if i == 4 then CaptureHead else if i == 5 then CaptureClean
    else if i == 6 then CaptureRecheck else if i == 7 then CaptureReclean else if i == 8 then LocalCheck
    else if i == 9 then HostedCheck else if i == 10 then FinalHead else if i == 11 then FinalClean
    else if i == 12 then Stage else if i <= 14 then Write else if i == 15 then SyncStaged
    else if i == 16 then LinkStaged else if i == 17 then SyncDirectory else Close
  }

  /** State `i` of that run, alone at an absent path: staged at 13, written at 14, linked at 17. */
  function AloneAt(i: nat, content: bytes, commit: Commit): State {
    var r := Run(PhaseAt(i), Options(true, false, false), content, i >= 3, commit, i >= 13, 0,
                 if i >= 14 then |content| else 0, i >= 17, 0, 0, [], 0, 0, []);
    var files := if i < 13 then map[] else if i == 13 then map[0 := []] else map[0 := content];
    State(Disk(if i >= 17 then Present(File(0)) else Absent, files), Repository(commit, true), [r])
  }

  lemma AloneStep(i: nat, content: bytes, commit: Commit)
    requires i < 18 && content != []
    ensures Next(AloneAt(i, content, commit), AloneAt(i + 1, content, commit))
  {
    hide Next, LinkFile, StageFile, WriteSome, Invalidating, Deciding, Checking, Publishing, Examining;
    var s, s' := AloneAt(i, content, commit), AloneAt(i + 1, content, commit);
    if i == 12 || i == 13 || i == 16 {
      AloneDiskStep(i, content, commit);
    } else {
      AloneQuietStep(i, content, commit);
    }
    OnlyRunMoves(s, s');
  }

  lemma OnlyRunMoves(s: State, s': State)
    requires |s.runs| == |s'.runs| == 1 && s'.repo == s.repo && RunStep(s.disk, s.repo, s.runs[0], s'.disk, s'.runs[0])
    ensures Next(s, s')
  {
    assert StepOf(s, s', 0);
  }

  lemma AloneDiskStep(i: nat, content: bytes, commit: Commit)
    requires (i == 12 || i == 13 || i == 16) && content != []
    ensures var s, s' := AloneAt(i, content, commit), AloneAt(i + 1, content, commit);
      RunStep(s.disk, s.repo, s.runs[0], s'.disk, s'.runs[0])
  {
    hide Invalidating, Deciding, Checking, Publishing, Examining;
    var s, s' := AloneAt(i, content, commit), AloneAt(i + 1, content, commit);
    var empty: map<nat, bytes> := map[];
    assert empty[0 := []] == map[0 := []] && map[0 := []][0 := content] == map[0 := content];
    assert content[..|content|] == content;
    if i == 12 { assert StageFile(s.disk, s.runs[0], s'.disk, s'.runs[0]); }
    else if i == 13 { assert WriteSome(s.disk, s.runs[0], s'.disk, s'.runs[0]); }
    else { assert LinkFile(s.disk, s.runs[0], s'.disk, s'.runs[0]); }
  }

  lemma AloneQuietStep(i: nat, content: bytes, commit: Commit)
    requires i < 18 && i != 12 && i != 13 && i != 16
    ensures var s, s' := AloneAt(i, content, commit), AloneAt(i + 1, content, commit);
      RunStep(s.disk, s.repo, s.runs[0], s'.disk, s'.runs[0])
  {
    hide LinkFile, StageFile, WriteSome, Examining;
    var s, s' := AloneAt(i, content, commit), AloneAt(i + 1, content, commit);
    var r, r' := s.runs[0], s'.runs[0];
    if i < 3 { assert Invalidating(s.disk, r, r'); }
    else if i == 3 { assert Deciding(r, r'); }
    else if i < 12 { assert Checking(s.repo, r, r'); }
    else { assert Publishing(s.disk, r, r'); }
  }

  /** For either cause there is a run that ends with a failing exit and its complete evidence at the path. */
  lemma FailingExitWithEvidence(content: bytes, commit: Commit, why: Why) returns (trace: seq<State>)
    requires content != [] && (why == DurabilityUnknown || why == CloseFailed)
    ensures Behaviour(trace) && |trace[0].runs| == 1
    ensures var last := trace[|trace| - 1];
      |last.runs| == 1 && last.runs[0].phase == ExitFailed(why) && last.runs[0].invalidated && Shows(last.disk, content)
  {
    hide Next, AloneAt;
    var n := if why == DurabilityUnknown then 17 else 18;
    var last := AloneEnds(n, content, commit, why);
    var steps := seq(n + 1, i requires 0 <= i <= n => AloneAt(i, content, commit));
    trace := steps + [last];
    forall i | 0 <= i < |trace| - 1 ensures StepAt(trace, i) {
      if i < n { AloneStep(i, content, commit); }
    }
    AloneStarts(content, commit);
  }

  lemma AloneStarts(content: bytes, commit: Commit)
    ensures Initial(AloneAt(0, content, commit)) && |AloneAt(0, content, commit).runs| == 1
  {
  }

  lemma AloneEnds(n: nat, content: bytes, commit: Commit, why: Why) returns (last: State)
    requires (n == 17 && why == DurabilityUnknown) || (n == 18 && why == CloseFailed)
    ensures Next(AloneAt(n, content, commit), last)
    ensures |last.runs| == 1 && last.runs[0].phase == ExitFailed(why) && last.runs[0].invalidated && Shows(last.disk, content)
  {
    hide LinkFile, StageFile, WriteSome, Invalidating, Deciding, Checking, Examining, Next;
    var s := AloneAt(n, content, commit);
    last := s.(runs := [s.runs[0].(phase := ExitFailed(why))]);
    assert Publishing(s.disk, s.runs[0], last.runs[0]);
    OnlyRunMoves(s, last);
  }
}
