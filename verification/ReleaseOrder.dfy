/** What a run of `release_check.main` has gone through by the time it exits with status 0: the removal of old evidence,
    the checks of its mode, and every sync, each in its order. */
module ReleaseOrder {
  import opened ReleaseEvidence

  // ---------- Success means: everything was synced, in order ----------

  /** The staged file was synced at `w`, it was linked or a file that was there was compared at `l`, the directory was
      synced at `d` and the descriptors were closed at `z`, all after the last check at `e`. */
  ghost predicate Synced(trace: seq<State>, p: nat, e: nat, w: nat, l: nat, d: nat, z: nat) {
    && e < w < l < d < z && At(trace, e, p, FinalClean) && At(trace, w, p, SyncStaged)
    && (At(trace, l, p, LinkStaged) || At(trace, l, p, LookFinal))
    && At(trace, d, p, SyncDirectory) && At(trace, z, p, Close)
  }

  lemma LateStageIs(p: Phase)
    ensures StageOf(p) == 11 ==> p == SyncStaged
    ensures StageOf(p) == 13 ==> p == SyncDirectory
    ensures StageOf(p) == 14 ==> p == Close
  {
  }

  lemma LateStages(trace: seq<State>, p: nat, times: seq<nat>, captured: Commit)
    requires |times| == 14 && Passed(trace, p, times, captured)
    ensures Synced(trace, p, times[7], times[10], times[11], times[12], times[13])
  {
    hide StageOf;
    forall k | 0 <= k < 14 ensures PassedAt(trace, p, k + 1, times[k], captured) {}
    StageIs(trace[times[7]].runs[p].phase);
    LateStageIs(trace[times[10]].runs[p].phase);
    LateStageIs(trace[times[12]].runs[p].phase);
    LateStageIs(trace[times[13]].runs[p].phase);
  }

  /** Exit status 0 with `--evidence`: the last check, the sync of the staged file, its link or the comparison, the sync
      of the directory and the closing all took place, in this order. */
  lemma SuccessIsSynced(trace: seq<State>, n: nat, p: nat) returns (e: nat, w: nat, l: nat, d: nat, z: nat)
    requires Behaviour(trace) && n < |trace| && p < |trace[0].runs| == |trace[n].runs|
    requires trace[0].runs[p].options.evidence && trace[n].runs[p].phase == ExitOk
    ensures Synced(trace, p, e, w, l, d, z) && z < n
  {
    hide Passed, Synced;
    var times := StagesPassed(trace, n, p);
    LateStages(trace, p, times, trace[n].runs[p].captured);
    e, w, l, d, z := times[7], times[10], times[11], times[12], times[13];
  }

  // ---------- The old evidence is gone before anything else ----------

  ghost predicate Invalidated(p: Phase) { p.InvalidateSync? || p.ReadOptions? || StageOf(p) > 0 }

  /** The old evidence was found absent, or this run has removed it and is about to sync the directory. */
  ghost predicate Cleared(trace: seq<State>, i: nat, p: nat) {
    i < |trace| && trace[i].disk.path == Absent && (At(trace, i, p, InvalidateStat) || At(trace, i, p, InvalidateSync))
  }

  /** How a run with evidence gets past its invalidation. */
  ghost predicate Clears(d: Disk, r: Run, d': Disk, r': Run) {
    Invalidated(r'.phase) ==> Invalidated(r.phase) || (r.phase.InvalidateStat? && d.path == Absent && !r'.phase.InvalidateSync?)
                              || (r'.phase.InvalidateSync? && d'.path == Absent)
  }

  lemma QuietClears(d: Disk, g: Repository, r: Run, r': Run)
    requires Quiet(d, g, r, r') && EvidenceRun(r)
    ensures Clears(d, r, d, r') && (r'.phase.InvalidateSync? ==> r.phase.InvalidateSync?)
  {
    hide Deciding, Checking, Publishing, Examining, Invalidating, Clears, EvidenceRun;
    if Invalidating(d, r, r') { InvalidatingClears(d, r, r'); } else { LaterClears(d, g, r, r'); }
  }

  lemma InvalidatingClears(d: Disk, r: Run, r': Run)
    requires Invalidating(d, r, r') && EvidenceRun(r)
    ensures Clears(d, r, d, r') && !r'.phase.InvalidateSync?
  {
  }

  lemma LaterClears(d: Disk, g: Repository, r: Run, r': Run)
    requires EvidenceRun(r) && (Deciding(r, r') || Checking(g, r, r') || Publishing(d, r, r') || Examining(d, r, r'))
    ensures Clears(d, r, d, r') && !r'.phase.InvalidateSync?
  {
    hide Clears, Deciding, Checking, Publishing, Examining, EvidenceRun;
    if Deciding(r, r') { AfterDeciding(d, r, r'); }
    else if Checking(g, r, r') { AfterChecking(d, g, r, r'); }
    else { AfterPublishing(d, r, r'); }
  }

  lemma AfterDeciding(d: Disk, r: Run, r': Run)
    requires EvidenceRun(r) && Deciding(r, r')
    ensures Clears(d, r, d, r') && !r'.phase.InvalidateSync?
  {
  }

  lemma AfterChecking(d: Disk, g: Repository, r: Run, r': Run)
    requires Checking(g, r, r')
    ensures Clears(d, r, d, r') && !r'.phase.InvalidateSync?
  {
  }

  lemma AfterPublishing(d: Disk, r: Run, r': Run)
    requires Publishing(d, r, r') || Examining(d, r, r')
    ensures Clears(d, r, d, r') && !r'.phase.InvalidateSync?
  {
  }

  lemma DiskStepClears(d: Disk, r: Run, d': Disk, r': Run)
    requires RemoveOld(d, r, d', r') || StageFile(d, r, d', r') || WriteSome(d, r, d', r') || LinkFile(d, r, d', r')
    ensures Clears(d, r, d', r')
  {
  }

  lemma StepClears(s: State, s': State, p: nat)
    requires Next(s, s') && p < |s.runs| && EvidenceRun(s.runs[p])
    ensures p < |s'.runs| && (Clears(s.disk, s.runs[p], s'.disk, s'.runs[p]) || s'.runs[p] == s.runs[p])
  {
    hide Quiet, RemoveOld, StageFile, WriteSome, LinkFile, EvidenceRun;
    if !Outside(s, s') {
      var q: nat :| StepOf(s, s', q);
      if q == p {
        var r, r' := s.runs[p], s'.runs[p];
        if s'.disk == s.disk && Quiet(s.disk, s.repo, r, r') { QuietClears(s.disk, s.repo, r, r'); }
        else if !Goes(r, r', Killed) { DiskStepClears(s.disk, r, s'.disk, r'); }
      }
    }
  }

  /** A run with evidence that is past its invalidation has seen the path absent: it found nothing there, or it removed
      what was there and then synced the directory. */
  lemma {:induction false} InvalidationSeen(trace: seq<State>, n: nat, p: nat) returns (i: nat)
    requires Behaviour(trace) && n < |trace| && p < |trace[0].runs| == |trace[n].runs|
    requires trace[0].runs[p].options.evidence && Invalidated(trace[n].runs[p].phase)
    ensures i <= n && Cleared(trace, i, p)
  {
    hide Next, EvidenceRun, Inv;
    assert n > 0;
    RunBefore(trace, 0, n - 1, p);
    InvThroughout(trace, n - 1);
    BehaviourStep(trace, n - 1);
    StepClears(trace[n - 1], trace[n], p);
    if Invalidated(trace[n - 1].runs[p].phase) {
      i := InvalidationSeen(trace, n - 1, p);
    } else {
      i := if trace[n].runs[p].phase.InvalidateSync? then n else n - 1;
    }
  }

  // ---------- Success without evidence ----------

  /** How far a run is with its checks, with evidence or not. */
  function ChecksOf(p: Phase): nat {
    match p
    case LocalCheck => 1
    case HostedCheck => 2
    case _ => if StageOf(p) >= 7 then 3 else 0
  }

  /** What a run may be doing in each of its modes. */
  ghost predicate ModeOk(r: Run) {
    && (r.phase.WriteInventory? ==> r.options.inventory && !r.options.evidence)
    && (r.options.inventory && StageOf(r.phase) > 0 ==> r.phase.ExitOk? && !r.options.evidence)
    && (r.options.evidence && StageOf(r.phase) > 0 ==> !r.options.distributionOnly)
    && (1 < StageOf(r.phase) < 5 || (6 < StageOf(r.phase) && !r.phase.ExitOk?) ==> r.options.evidence)
    && (r.phase.CaptureHead? ==> r.options.evidence)
  }

  /** Every check comes after the one before; only a distribution-only run leaves out the hosted one. */
  ghost predicate ChecksInOrder(r: Run, r': Run) {
    var k, k' := ChecksOf(r.phase), ChecksOf(r'.phase);
    && r'.options == r.options && ModeOk(r')
    && (!r.options.inventory ==> k' <= 1 || k' == k || (k >= 1 && k' == k + 1) || (k == 1 && k' == 3 && r.options.distributionOnly))
    && (r.options.inventory && r'.phase.ExitOk? ==> r.phase.ExitOk? || r.phase.WriteInventory?)
  }

  lemma QuietInOrder(d: Disk, g: Repository, r: Run, r': Run)
    requires Quiet(d, g, r, r') && ModeOk(r)
    ensures ChecksInOrder(r, r')
  {
    hide ChecksInOrder, ModeOk;
    if Invalidating(d, r, r') { InvalidatingInOrder(d, r, r'); }
    else if Deciding(r, r') { DecidingInOrder(r, r'); }
    else if Checking(g, r, r') { CheckingInOrder(g, r, r'); }
    else if Publishing(d, r, r') { PublishingInOrder(d, r, r'); }
    else { ExaminingInOrder(d, r, r'); }
  }

  lemma InvalidatingInOrder(d: Disk, r: Run, r': Run)
    requires Invalidating(d, r, r') && ModeOk(r)
    ensures ChecksInOrder(r, r')
  {
  }

  lemma DecidingInOrder(r: Run, r': Run)
    requires Deciding(r, r') && ModeOk(r)
    ensures ChecksInOrder(r, r')
  {
  }

  lemma CheckingInOrder(g: Repository, r: Run, r': Run)
    requires Checking(g, r, r') && ModeOk(r)
    ensures ChecksInOrder(r, r')
  {
    hide ChecksInOrder;
    if r.phase.LocalCheck? || r.phase.HostedCheck? { ChecksGoOn(g, r, r'); } else { ReadingsGoOn(g, r, r'); }
  }

  lemma ChecksGoOn(g: Repository, r: Run, r': Run)
    requires Checking(g, r, r') && ModeOk(r) && (r.phase.LocalCheck? || r.phase.HostedCheck?)
    ensures ChecksInOrder(r, r')
  {
  }

  lemma ReadingsGoOn(g: Repository, r: Run, r': Run)
    requires Checking(g, r, r') && ModeOk(r) && !r.phase.LocalCheck? && !r.phase.HostedCheck?
    ensures ChecksInOrder(r, r')
  {
  }

  lemma PublishingInOrder(d: Disk, r: Run, r': Run)
    requires Publishing(d, r, r') && ModeOk(r)
    ensures ChecksInOrder(r, r')
  {
  }

  lemma ExaminingInOrder(d: Disk, r: Run, r': Run)
    requires Examining(d, r, r') && ModeOk(r)
    ensures ChecksInOrder(r, r')
  {
  }

  lemma DiskStepInOrder(d: Disk, r: Run, d': Disk, r': Run)
    requires RemoveOld(d, r, d', r') || StageFile(d, r, d', r') || WriteSome(d, r, d', r') || LinkFile(d, r, d', r')
    requires ModeOk(r)
    ensures ChecksInOrder(r, r')
  {
  }

  lemma KilledInOrder(r: Run, r': Run)
    requires Goes(r, r', Killed) && ModeOk(r)
    ensures ChecksInOrder(r, r')
  {
  }

  lemma StepInOrder(s: State, s': State, p: nat)
    requires Next(s, s') && p < |s.runs| && ModeOk(s.runs[p])
    ensures p < |s'.runs| == |s.runs| && (ChecksInOrder(s.runs[p], s'.runs[p]) || s'.runs[p] == s.runs[p])
  {
    hide ModeOk, ChecksInOrder, Quiet, Goes, RemoveOld, StageFile, WriteSome, LinkFile;
    if !Outside(s, s') {
      var q: nat :| StepOf(s, s', q);
      if q == p {
        var r, r' := s.runs[p], s'.runs[p];
        if s'.disk == s.disk && Quiet(s.disk, s.repo, r, r') { QuietInOrder(s.disk, s.repo, r, r'); }
        else if s'.disk == s.disk && Goes(r, r', Killed) { KilledInOrder(r, r'); }
        else { DiskStepInOrder(s.disk, r, s'.disk, r'); }
      }
    }
  }

  lemma {:induction false} ModeThroughout(trace: seq<State>, n: nat, p: nat)
    requires Behaviour(trace) && n < |trace| && p < |trace[0].runs|
    ensures p < |trace[n].runs| && ModeOk(trace[n].runs[p]) && trace[n].runs[p].options == trace[0].runs[p].options
  {
    hide Next, ModeOk;
    if n == 0 {
      ModeAtStart(trace[0].runs[p]);
    } else {
      ModeThroughout(trace, n - 1, p);
      BehaviourStep(trace, n - 1);
      StepInOrder(trace[n - 1], trace[n], p);
    }
  }

  lemma ModeAtStart(r: Run)
    requires r.phase == Begin
    ensures ModeOk(r)
  {
  }

  /** A run past its local check was there before, and one past the hosted check, unless it is distribution-only,
      went through that as well. */
  lemma {:induction false} ChecksBefore(trace: seq<State>, n: nat, p: nat) returns (i: nat, j: nat)
    requires Behaviour(trace) && n < |trace| && p < |trace[0].runs| && p < |trace[n].runs| && !trace[0].runs[p].options.inventory
    requires ChecksOf(trace[n].runs[p].phase) > 1
    ensures i < n && At(trace, i, p, LocalCheck)
    ensures ChecksOf(trace[n].runs[p].phase) == 3 && !trace[0].runs[p].options.distributionOnly ==>
              i < j < n && At(trace, j, p, HostedCheck)
  {
    hide Next, ModeOk, Behaviour, StageOf;
    NotAtStart(trace, n, p);
    ModeThroughout(trace, n - 1, p);
    BehaviourStep(trace, n - 1);
    StepInOrder(trace[n - 1], trace[n], p);
    var k, k' := ChecksOf(trace[n - 1].runs[p].phase), ChecksOf(trace[n].runs[p].phase);
    if k == 1 {
      i, j := n - 1, n;
    } else if k == k' {
      i, j := ChecksBefore(trace, n - 1, p);
    } else {
      i, j := ChecksBefore(trace, n - 1, p);
      j := n - 1;
    }
  }

  lemma NotAtStart(trace: seq<State>, n: nat, p: nat)
    requires Behaviour(trace) && n < |trace| && p < |trace[0].runs| && p < |trace[n].runs|
    requires ChecksOf(trace[n].runs[p].phase) > 0
    ensures n > 0
  {
  }

  /** Exit status 0 of any run that is not for the inventory only: the local checks were passed, and after them the
      hosted ones unless the run is distribution-only. */
  lemma ExitPassedChecks(trace: seq<State>, n: nat, p: nat) returns (i: nat, j: nat)
    requires Behaviour(trace) && n < |trace| && p < |trace[0].runs| && At(trace, n, p, ExitOk)
    requires !trace[0].runs[p].options.inventory
    ensures i < n && At(trace, i, p, LocalCheck)
    ensures !trace[0].runs[p].options.distributionOnly ==> i < j < n && At(trace, j, p, HostedCheck)
    ensures trace[0].runs[p].options.evidence ==> !trace[0].runs[p].options.distributionOnly
  {
    hide Behaviour;
    ModeThroughout(trace, n, p);
    i, j := ChecksBefore(trace, n, p);
  }

  /** Exit status 0 of an inventory run: it had no evidence to publish, and wrote the inventory. */
  lemma {:induction false} InventoryRunWrites(trace: seq<State>, n: nat, p: nat) returns (i: nat)
    requires Behaviour(trace) && n < |trace| && p < |trace[0].runs| && At(trace, n, p, ExitOk)
    requires trace[0].runs[p].options.inventory
    ensures i < n && At(trace, i, p, WriteInventory) && !trace[0].runs[p].options.evidence
  {
    hide Next, Behaviour;
    NotAtStart(trace, n, p);
    ModeThroughout(trace, n, p);
    ModeThroughout(trace, n - 1, p);
    BehaviourStep(trace, n - 1);
    StepInOrder(trace[n - 1], trace[n], p);
    if trace[n - 1].runs[p].phase.ExitOk? {
      i := InventoryRunWrites(trace, n - 1, p);
    } else {
      i := n - 1;
    }
  }
}
