/** `publish_report`: any number of runs publish to one name in one directory, step by step, in any
    interleaving, with operating-system faults and crashes at any point. */
module AtomicPublish {
  import opened Bytes

  // ---------- Disk and runs ----------

  /** One directory and the files behind it. A file outlives its last name while a run holds it open. */
  datatype Disk = Disk(names: map<string, nat>, files: map<nat, bytes>)

  datatype Reason =
    | OutputExists  // refused: the destination has an entry
    | NameLost      // the temporary name is gone
    | Fault         // any other operating-system error

  datatype Phase =
    | Start                     // before `path.lstat()`
    | SeenAbsent                // the parent checks come next
    | ParentOk                  // `mkstemp` comes next
    | Writing                   // the temporary file is being written
    | Synced                    // `os.link` comes next
    | Linked                    // `temporary.unlink()` comes next
    | Unlinked                  // `fsync` of the parent comes next
    | Cleanup(why: seq<Reason>) // the `finally` clause comes next; an empty list is success
    | Succeeded
    | Failed(why: seq<Reason>)
    | Crashed

  datatype Run = Run(phase: Phase, content: bytes, temp: string, file: nat, written: nat, hasFile: bool, linked: bool)

  datatype State = State(disk: Disk, runs: seq<Run>)

  /** `tempfile.mkstemp(prefix=f".{name}.", suffix=".tmp")` with any middle part. */
  ghost predicate TempName(dest: string, temp: string) {
    exists middle: string :: temp == "." + dest + "." + middle + ".tmp"
  }

  ghost predicate Ended(p: Phase) { p.Succeeded? || p.Failed? || p.Crashed? }

  ghost predicate Holds(p: Phase) { p.Writing? || p.Synced? || p.Linked? || p.Unlinked? || p.Cleanup? }

  // ---------- The steps of one run ----------

  ghost predicate CheckAbsent(dest: string, d: Disk, r: Run, d': Disk, r': Run) {
    && r.phase == Start && d' == d
    && r' == r.(phase := if dest in d.names then Failed([OutputExists]) else SeenAbsent)
  }

  ghost predicate CheckParent(d: Disk, r: Run, d': Disk, r': Run) {
    && r.phase == SeenAbsent && d' == d
    && (r' == r.(phase := ParentOk) || r' == r.(phase := Failed([Fault])))
  }

  ghost predicate MakeTemporary(dest: string, d: Disk, r: Run, d': Disk, r': Run) {
    && r.phase == ParentOk
    && (|| (d' == d && r' == r.(phase := Failed([Fault])))
        || (&& TempName(dest, r'.temp) && r'.temp !in d.names && r'.file !in d.files
            && d' == Disk(d.names[r'.temp := r'.file], d.files[r'.file := []])
            && r' == Run(Writing, r.content, r'.temp, r'.file, 0, true, false)))
  }

  ghost predicate WriteSome(d: Disk, r: Run, d': Disk, r': Run) {
    && r.phase == Writing && r.written < r'.written <= |r.content|
    && d' == d.(files := d.files[r.file := r.content[..r'.written]])
    && r' == r.(written := r'.written)
  }

  ghost predicate SyncFile(d: Disk, r: Run, d': Disk, r': Run) {
    && r.phase == Writing && d' == d
    && (|| (r.written == |r.content| && r' == r.(phase := Synced))
        || r' == r.(phase := Cleanup([Fault])))
  }

  /** `os.link(temporary, path)`: it goes by name, and never replaces an entry. */
  ghost predicate Link(dest: string, d: Disk, r: Run, d': Disk, r': Run) {
    && r.phase == Synced
    && (|| (d' == d && r' == r.(phase := Cleanup([Fault])))
        || (r.temp !in d.names && d' == d && r' == r.(phase := Cleanup([NameLost])))
        || (dest in d.names && d' == d && r' == r.(phase := Cleanup([OutputExists])))
        || (&& r.temp in d.names && dest !in d.names
            && d' == d.(names := d.names[dest := d.names[r.temp]])
            && r' == r.(phase := Linked, linked := true)))
  }

  ghost predicate Unlink(d: Disk, r: Run, d': Disk, r': Run) {
    && r.phase == Linked
    && (|| (d' == d && r' == r.(phase := Cleanup([Fault])))
        || (r.temp !in d.names && d' == d && r' == r.(phase := Cleanup([NameLost])))
        || (r.temp in d.names && d' == d.(names := d.names - {r.temp}) && r' == r.(phase := Unlinked)))
  }

  ghost predicate SyncParent(d: Disk, r: Run, d': Disk, r': Run) {
    && r.phase == Unlinked && d' == d
    && (r' == r.(phase := Cleanup([])) || r' == r.(phase := Cleanup([Fault])))
  }

  /** `temporary.unlink(missing_ok=True)` in the `finally` clause. */
  ghost predicate CleanUp(d: Disk, r: Run, d': Disk, r': Run) {
    && r.phase.Cleanup? && d' == d.(names := d.names - {r.temp})
    && r' == r.(phase := if r.phase.why == [] then Succeeded else Failed(r.phase.why))
  }

  ghost predicate Crash(d: Disk, r: Run, d': Disk, r': Run) {
    !Ended(r.phase) && d' == d && r' == r.(phase := Crashed)
  }

  ghost predicate RunStep(dest: string, d: Disk, r: Run, d': Disk, r': Run) {
    || CheckAbsent(dest, d, r, d', r')
    || CheckParent(d, r, d', r')
    || MakeTemporary(dest, d, r, d', r')
    || WriteSome(d, r, d', r')
    || SyncFile(d, r, d', r')
    || Link(dest, d, r, d', r')
    || Unlink(d, r, d', r')
    || SyncParent(d, r, d', r')
    || CleanUp(d, r, d', r')
    || Crash(d, r, d', r')
  }

  ghost predicate StepOf(dest: string, s: State, s': State, p: nat) {
    p < |s.runs| == |s'.runs| && RunStep(dest, s.disk, s.runs[p], s'.disk, s'.runs[p]) &&
    forall q :: 0 <= q < |s.runs| && q != p ==> s'.runs[q] == s.runs[q]
  }

  ghost predicate Next(dest: string, s: State, s': State) {
    exists p: nat :: StepOf(dest, s, s', p)
  }

  ghost predicate Initial(s: State) {
    && (forall n :: n in s.disk.names ==> s.disk.names[n] in s.disk.files)
    && forall p :: 0 <= p < |s.runs| ==>
         s.runs[p].phase == Start && !s.runs[p].hasFile && !s.runs[p].linked
  }

  ghost predicate StepAt(dest: string, trace: seq<State>, i: nat)
    requires i < |trace| - 1
  {
    Next(dest, trace[i], trace[i + 1])
  }

  ghost predicate Behaviour(dest: string, trace: seq<State>) {
    && trace != [] && Initial(trace[0])
    && forall i :: 0 <= i < |trace| - 1 ==> StepAt(dest, trace, i)
  }

  // ---------- The invariant ----------

  ghost predicate FileOf(d: Disk, r: Run) {
    r.file in d.files && r.written <= |r.content| && d.files[r.file] == r.content[..r.written]
  }

  /** Facts about one run and the disk. `d0` is the disk at the start. */
  ghost predicate RunOk(dest: string, d0: Disk, d: Disk, r: Run) {
    && (r.hasFile ==> FileOf(d, r) && r.file !in d0.files && r.temp !in d0.names && r.temp != dest)
    && (Holds(r.phase) ==> r.hasFile)
    && (r.phase.Start? || r.phase.SeenAbsent? || r.phase.ParentOk? ==> !r.hasFile && !r.linked)
    && (r.phase.Synced? || r.linked ==> r.hasFile && r.written == |r.content|)
    && (r.phase.Linked? || r.phase.Unlinked? || r.phase == Cleanup([]) || r.phase.Succeeded? ==> r.linked)
    && (r.linked ==> !r.phase.Writing? && !r.phase.Synced?)
    && (r.linked ==> dest in d.names && d.names[dest] == r.file)
    && (Holds(r.phase) && (dest !in d.names || r.phase.Linked?) ==> r.temp in d.names && d.names[r.temp] == r.file)
    && (r.phase.Cleanup? && r.linked ==> r.phase.why == [] || r.phase.why == [Fault])
    && (r.phase.Failed? && r.linked ==> r.phase.why == [Fault])
    && (r.phase.Cleanup? || r.phase.Failed? ==> r.phase.why == [] || r.phase.why == [Fault] || dest in d.names)
    && (r.phase.Failed? ==> r.phase.why != [])
  }

  ghost predicate Apart(r: Run, q: Run) {
    && (r.hasFile && q.hasFile ==> r.file != q.file)
    && (r.phase.Linked? && Holds(q.phase) ==> r.temp != q.temp)
  }

  /** Entries present at the start are untouched. */
  ghost predicate StartKept(d0: Disk, d: Disk) {
    && (forall n :: n in d0.names ==> n in d.names && d.names[n] == d0.names[n] && d0.names[n] in d0.files)
    && (forall f :: f in d0.files ==> f in d.files && d.files[f] == d0.files[f])
    && (forall n :: n in d.names ==> d.names[n] in d.files)
  }

  /** Every further name is the destination or a temporary name some run still answers for. */
  ghost predicate NamesExplained(dest: string, d0: Disk, s: State) {
    forall n :: n in s.disk.names && n !in d0.names && n != dest ==>
      exists p :: 0 <= p < |s.runs| && s.runs[p].hasFile && s.runs[p].temp == n &&
                  (Holds(s.runs[p].phase) || s.runs[p].phase.Crashed?)
  }

  ghost predicate DestExplained(dest: string, d0: Disk, s: State) {
    dest in s.disk.names ==> dest in d0.names || exists p :: 0 <= p < |s.runs| && s.runs[p].linked
  }

  ghost predicate Inv(dest: string, d0: Disk, s: State) {
    && (forall p :: 0 <= p < |s.runs| ==> RunOk(dest, d0, s.disk, s.runs[p]))
    && (forall p, q :: 0 <= p < |s.runs| && 0 <= q < |s.runs| && p != q ==> Apart(s.runs[p], s.runs[q]))
    && StartKept(d0, s.disk)
    && NamesExplained(dest, d0, s)
    && DestExplained(dest, d0, s)
  }

  lemma InitialInv(dest: string, s: State)
    requires Initial(s)
    ensures Inv(dest, s.disk, s)
  {
  }

  lemma TempNotDest(dest: string, temp: string)
    requires TempName(dest, temp)
    ensures temp != dest
  {
    var middle: string :| temp == "." + dest + "." + middle + ".tmp";
    assert |temp| > |dest|;
  }

  lemma FileStepOk(dest: string, d0: Disk, d: Disk, r: Run, d': Disk, r': Run)
    requires RunOk(dest, d0, d, r) && StartKept(d0, d)
    requires MakeTemporary(dest, d, r, d', r') || WriteSome(d, r, d', r')
    ensures RunOk(dest, d0, d', r') && StartKept(d0, d')
  {
    hide TempName;
    if MakeTemporary(dest, d, r, d', r') && r'.phase.Writing? { TempNotDest(dest, r'.temp); }
  }

  lemma NameStepOk(dest: string, d0: Disk, d: Disk, r: Run, d': Disk, r': Run)
    requires RunOk(dest, d0, d, r) && StartKept(d0, d)
    requires Link(dest, d, r, d', r') || Unlink(d, r, d', r') || CleanUp(d, r, d', r')
    ensures RunOk(dest, d0, d', r') && StartKept(d0, d')
  {
  }

  lemma QuietStepOk(dest: string, d0: Disk, d: Disk, r: Run, d': Disk, r': Run)
    requires RunOk(dest, d0, d, r) && StartKept(d0, d)
    requires CheckAbsent(dest, d, r, d', r') || CheckParent(d, r, d', r') || SyncFile(d, r, d', r') ||
             SyncParent(d, r, d', r') || Crash(d, r, d', r')
    ensures RunOk(dest, d0, d', r') && StartKept(d0, d')
  {
  }

  /** The run that moves, and what it does to the disk, keep the invariant of that run. */
  lemma MoverOk(dest: string, d0: Disk, s: State, s': State, p: nat)
    requires Inv(dest, d0, s) && StepOf(dest, s, s', p)
    ensures RunOk(dest, d0, s'.disk, s'.runs[p]) && StartKept(d0, s'.disk)
  {
    var d, r, d', r' := s.disk, s.runs[p], s'.disk, s'.runs[p];
    assert RunOk(dest, d0, d, r);
    hide RunOk, StartKept, MakeTemporary, WriteSome, Link, Unlink, CleanUp;
    if MakeTemporary(dest, d, r, d', r') || WriteSome(d, r, d', r') { FileStepOk(dest, d0, d, r, d', r'); }
    else if Link(dest, d, r, d', r') || Unlink(d, r, d', r') || CleanUp(d, r, d', r') { NameStepOk(dest, d0, d, r, d', r'); }
    else { QuietStepOk(dest, d0, d, r, d', r'); }
  }

  lemma FileStepApart(dest: string, d0: Disk, d: Disk, r: Run, d': Disk, r': Run, o: Run)
    requires RunOk(dest, d0, d, r) && RunOk(dest, d0, d, o) && StartKept(d0, d) && Apart(r, o) && Apart(o, r)
    requires MakeTemporary(dest, d, r, d', r') || WriteSome(d, r, d', r')
    ensures RunOk(dest, d0, d', o) && Apart(r', o) && Apart(o, r')
  {
    hide TempName;
    if MakeTemporary(dest, d, r, d', r') && r'.phase.Writing? { TempNotDest(dest, r'.temp); }
  }

  lemma NameStepApart(dest: string, d0: Disk, d: Disk, r: Run, d': Disk, r': Run, o: Run)
    requires RunOk(dest, d0, d, r) && RunOk(dest, d0, d, o) && StartKept(d0, d) && Apart(r, o) && Apart(o, r)
    requires Link(dest, d, r, d', r') || Unlink(d, r, d', r') || CleanUp(d, r, d', r')
    ensures RunOk(dest, d0, d', o) && Apart(r', o) && Apart(o, r')
  {
  }

  lemma QuietStepApart(dest: string, d0: Disk, d: Disk, r: Run, d': Disk, r': Run, o: Run)
    requires RunOk(dest, d0, d, r) && RunOk(dest, d0, d, o) && StartKept(d0, d) && Apart(r, o) && Apart(o, r)
    requires CheckAbsent(dest, d, r, d', r') || CheckParent(d, r, d', r') || SyncFile(d, r, d', r') ||
             SyncParent(d, r, d', r') || Crash(d, r, d', r')
    ensures RunOk(dest, d0, d', o) && Apart(r', o) && Apart(o, r')
  {
  }

  lemma OthersOk(dest: string, d0: Disk, s: State, s': State, p: nat, q: nat)
    requires Inv(dest, d0, s) && StepOf(dest, s, s', p) && q < |s.runs| && q != p
    ensures RunOk(dest, d0, s'.disk, s'.runs[q]) && Apart(s'.runs[p], s'.runs[q]) && Apart(s'.runs[q], s'.runs[p])
  {
    hide RunOk, StartKept, Apart, MakeTemporary, WriteSome, Link, Unlink, CleanUp, NamesExplained, DestExplained;
    var d, r, d', r', o := s.disk, s.runs[p], s'.disk, s'.runs[p], s.runs[q];
    assert RunOk(dest, d0, d, r) && RunOk(dest, d0, d, o) && Apart(r, o) && Apart(o, r);
    if MakeTemporary(dest, d, r, d', r') || WriteSome(d, r, d', r') { FileStepApart(dest, d0, d, r, d', r', o); }
    else if Link(dest, d, r, d', r') || Unlink(d, r, d', r') || CleanUp(d, r, d', r') { NameStepApart(dest, d0, d, r, d', r', o); }
    else { QuietStepApart(dest, d0, d, r, d', r', o); }
  }

  /** What a step does to the names, and to the run that takes it. */
  lemma NamesAfter(dest: string, d0: Disk, d: Disk, r: Run, d': Disk, r': Run, n: string)
    requires RunStep(dest, d, r, d', r') && RunOk(dest, d0, d, r)
    requires n in d'.names && n != dest
    ensures n in d.names && r.hasFile && r.temp == n && (Holds(r.phase) || r.phase.Crashed?) ==>
              r'.hasFile && r'.temp == n && (Holds(r'.phase) || r'.phase.Crashed?)
    ensures n !in d.names ==> r'.hasFile && r'.temp == n && Holds(r'.phase)
  {
    hide TempName;
  }

  lemma LinkedAfter(dest: string, d0: Disk, d: Disk, r: Run, d': Disk, r': Run)
    requires RunStep(dest, d, r, d', r') && RunOk(dest, d0, d, r)
    ensures r.linked ==> r'.linked
    ensures dest in d'.names && dest !in d.names ==> r'.linked
  {
    hide TempName;
    if MakeTemporary(dest, d, r, d', r') && d' != d { TempNotDest(dest, r'.temp); }
  }

  lemma NamesStillExplained(dest: string, d0: Disk, s: State, s': State, p: nat)
    requires Inv(dest, d0, s) && StepOf(dest, s, s', p)
    ensures NamesExplained(dest, d0, s') && DestExplained(dest, d0, s')
  {
    hide RunStep, RunOk, Holds;
    var d, r, d', r' := s.disk, s.runs[p], s'.disk, s'.runs[p];
    assert RunOk(dest, d0, d, r);
    forall n | n in d'.names && n !in d0.names && n != dest
      ensures exists q :: 0 <= q < |s'.runs| && s'.runs[q].hasFile && s'.runs[q].temp == n &&
                          (Holds(s'.runs[q].phase) || s'.runs[q].phase.Crashed?)
    {
      NamesAfter(dest, d0, d, r, d', r', n);
      if n in d.names {
        var q :| 0 <= q < |s.runs| && s.runs[q].hasFile && s.runs[q].temp == n &&
                 (Holds(s.runs[q].phase) || s.runs[q].phase.Crashed?);
        assert s'.runs[q].temp == n;
      } else {
        assert r'.temp == n;
      }
    }
    LinkedAfter(dest, d0, d, r, d', r');
    if dest in d'.names && dest !in d0.names {
      if dest in d.names {
        var q :| 0 <= q < |s.runs| && s.runs[q].linked;
        assert s'.runs[q].linked;
      } else {
        assert r'.linked;
      }
    }
  }

  lemma StepKeepsInv(dest: string, d0: Disk, s: State, s': State)
    requires Inv(dest, d0, s) && Next(dest, s, s')
    ensures Inv(dest, d0, s')
  {
    var p: nat :| StepOf(dest, s, s', p);
    MoverOk(dest, d0, s, s', p);
    NamesStillExplained(dest, d0, s, s', p);
    forall q | 0 <= q < |s.runs| && q != p
      ensures RunOk(dest, d0, s'.disk, s'.runs[q]) && Apart(s'.runs[p], s'.runs[q]) && Apart(s'.runs[q], s'.runs[p])
    {
      OthersOk(dest, d0, s, s', p, q);
    }
    forall a, b | 0 <= a < |s'.runs| && 0 <= b < |s'.runs| && a != b ensures Apart(s'.runs[a], s'.runs[b]) {
      if a != p && b != p { assert Apart(s.runs[a], s.runs[b]); }
    }
  }

  // ---------- Main results: every behaviour ----------

  lemma {:induction false} InvThroughout(dest: string, trace: seq<State>, i: nat)
    requires Behaviour(dest, trace) && i < |trace|
    ensures Inv(dest, trace[0].disk, trace[i])
  {
    if i == 0 {
      InitialInv(dest, trace[0]);
    } else {
      InvThroughout(dest, trace, i - 1);
      assert StepAt(dest, trace, i - 1);
      StepKeepsInv(dest, trace[0].disk, trace[i - 1], trace[i]);
    }
  }

  /** The bytes a reader of the destination would see. */
  ghost function Visible(dest: string, d: Disk): bytes
    requires dest in d.names && d.names[dest] in d.files
  {
    d.files[d.names[dest]]
  }

  ghost predicate AsAtStart(dest: string, d0: Disk, d: Disk)
    requires dest in d.names && d.names[dest] in d.files
  {
    dest in d0.names && d0.names[dest] in d0.files && Visible(dest, d) == Visible(dest, d0)
  }

  /** The destination holds the complete content of a run that linked it. */
  ghost predicate HoldsSomeRun(dest: string, s: State)
    requires dest in s.disk.names && s.disk.names[dest] in s.disk.files
  {
    exists p :: 0 <= p < |s.runs| && s.runs[p].linked && Visible(dest, s.disk) == s.runs[p].content
  }

  /** At every moment the destination is absent, or the entry it was at the start, or holds every byte of one
      run; no other entry is touched; and a run that succeeded finds its own bytes there. */
  lemma NeverPartial(dest: string, trace: seq<State>, i: nat)
    requires Behaviour(dest, trace) && i < |trace|
    ensures var s, d0 := trace[i], trace[0].disk;
      && (dest in s.disk.names ==> s.disk.names[dest] in s.disk.files && (AsAtStart(dest, d0, s.disk) || HoldsSomeRun(dest, s)))
      && (forall n :: n in d0.names && n != dest ==> n in s.disk.names && s.disk.names[n] == d0.names[n])
      && (forall f :: f in d0.files ==> f in s.disk.files && s.disk.files[f] == d0.files[f])
      && (forall p :: 0 <= p < |s.runs| && s.runs[p].phase.Succeeded? ==>
            dest in s.disk.names && Visible(dest, s.disk) == s.runs[p].content)
  {
    InvThroughout(dest, trace, i);
    var s, d0 := trace[i], trace[0].disk;
    assert forall p :: 0 <= p < |s.runs| ==> RunOk(dest, d0, s.disk, s.runs[p]);
    forall p | 0 <= p < |s.runs| && s.runs[p].linked
      ensures dest in s.disk.names && Visible(dest, s.disk) == s.runs[p].content
    {
      assert s.runs[p].content[..|s.runs[p].content|] == s.runs[p].content;
    }
    if dest in s.disk.names && dest !in d0.names {
      var p :| 0 <= p < |s.runs| && s.runs[p].linked;
      assert Visible(dest, s.disk) == s.runs[p].content;
    }
  }

  /** Once present, the destination is the same file with the same bytes for ever. */
  lemma {:induction false} DestinationStable(dest: string, trace: seq<State>, i: nat, j: nat)
    requires Behaviour(dest, trace) && i <= j < |trace| && dest in trace[i].disk.names
    requires trace[i].disk.names[dest] in trace[i].disk.files
    ensures dest in trace[j].disk.names && trace[j].disk.names[dest] in trace[j].disk.files
    ensures Visible(dest, trace[j].disk) == Visible(dest, trace[i].disk)
    decreases j - i
  {
    if i < j {
      InvThroughout(dest, trace, i);
      assert StepAt(dest, trace, i);
      StepKeepsDestination(dest, trace[0].disk, trace[i], trace[i + 1]);
      DestinationStable(dest, trace, i + 1, j);
    }
  }

  lemma StepKeepsDestination(dest: string, d0: Disk, s: State, s': State)
    requires Inv(dest, d0, s) && Next(dest, s, s') && dest in s.disk.names && s.disk.names[dest] in s.disk.files
    ensures dest in s'.disk.names && s'.disk.names[dest] in s'.disk.files
    ensures Visible(dest, s'.disk) == Visible(dest, s.disk)
  {
    var p: nat :| StepOf(dest, s, s', p);
    var r := s.runs[p];
    assert RunOk(dest, d0, s.disk, r);
    if MakeTemporary(dest, s.disk, r, s'.disk, s'.runs[p]) && s'.runs[p].phase.Writing? {
      TempNotDest(dest, s'.runs[p].temp);
    }
    if dest !in d0.names {
      var q :| 0 <= q < |s.runs| && s.runs[q].linked;
      assert RunOk(dest, d0, s.disk, s.runs[q]) && (p != q ==> Apart(r, s.runs[q]));
    }
  }

  /** At most one run succeeds, even among runs publishing equal bytes. */
  lemma AtMostOneSucceeds(dest: string, trace: seq<State>, i: nat, p: nat, q: nat)
    requires Behaviour(dest, trace) && i < |trace| && p < |trace[i].runs| && q < |trace[i].runs|
    requires trace[i].runs[p].phase.Succeeded? && trace[i].runs[q].phase.Succeeded?
    ensures p == q
  {
    InvThroughout(dest, trace, i);
    var s := trace[i];
    assert RunOk(dest, trace[0].disk, s.disk, s.runs[p]) && RunOk(dest, trace[0].disk, s.disk, s.runs[q]);
    assert p != q ==> Apart(s.runs[p], s.runs[q]);
  }

  /** When every run has ended and none crashed, no temporary name is left. */
  lemma NoTemporaryLeft(dest: string, trace: seq<State>, i: nat)
    requires Behaviour(dest, trace) && i < |trace|
    requires forall p :: 0 <= p < |trace[i].runs| ==> trace[i].runs[p].phase.Succeeded? || trace[i].runs[p].phase.Failed?
    ensures trace[i].disk.names.Keys - {dest} == trace[0].disk.names.Keys - {dest}
  {
    InvThroughout(dest, trace, i);
    var s := trace[i];
    assert forall n :: n in s.disk.names && n != dest ==> n in trace[0].disk.names;
  }

  /** The refusals are justified: if the destination was absent, every run has ended, and no run met an
      operating-system fault or crashed, then exactly one run succeeded. */
  lemma SomeRunSucceeds(dest: string, trace: seq<State>, i: nat) returns (winner: nat)
    requires Behaviour(dest, trace) && i < |trace| && dest !in trace[0].disk.names
    requires 0 < |trace[i].runs|
    requires forall p :: 0 <= p < |trace[i].runs| ==> var ph := trace[i].runs[p].phase;
               ph.Succeeded? || (ph.Failed? && ph.why != [Fault])
    ensures winner < |trace[i].runs| && trace[i].runs[winner].phase.Succeeded?
    ensures forall p :: 0 <= p < |trace[i].runs| && p != winner ==> trace[i].runs[p].phase.Failed?
  {
    InvThroughout(dest, trace, i);
    var s := trace[i];
    assert forall p :: 0 <= p < |s.runs| ==> RunOk(dest, trace[0].disk, s.disk, s.runs[p]);
    assert RunOk(dest, trace[0].disk, s.disk, s.runs[0]);
    assert dest in s.disk.names;
    winner :| 0 <= winner < |s.runs| && s.runs[winner].linked;
    assert RunOk(dest, trace[0].disk, s.disk, s.runs[winner]);
    forall p | 0 <= p < |s.runs| && s.runs[p].phase.Succeeded? ensures p == winner {
      AtMostOneSucceeds(dest, trace, i, p, winner);
    }
  }

  // ---------- What a successful run has gone through ----------

  function StageOf(p: Phase): nat {
    match p
    case Start => 1
    case SeenAbsent => 2
    case ParentOk => 3
    case Writing => 4
    case Synced => 5
    case Linked => 6
    case Unlinked => 7
    case Cleanup(why) => if why == [] then 8 else 0
    case Succeeded => 9
    case Failed(_) => 0
    case Crashed => 0
  }

  /** What a run met when it left a stage. */
  predicate Met(dest: string, k: nat, d: Disk, r: Run) {
    && (k == 1 || k == 5 ==> dest !in d.names)
    && (k == 4 ==> r.written == |r.content|)
    && (k == 5 ==> r.temp in d.names)
  }

  ghost predicate Climbs(dest: string, d: Disk, r: Run, r': Run) {
    var k, k' := StageOf(r.phase), StageOf(r'.phase);
    k' == 0 || (k > 0 && k' == k) || (k > 0 && k' == k + 1 && Met(dest, k, d, r))
  }

  lemma RunClimbs(dest: string, d: Disk, r: Run, d': Disk, r': Run)
    requires RunStep(dest, d, r, d', r')
    ensures Climbs(dest, d, r, r')
  {
    hide TempName, Climbs;
    if r'.phase.Crashed? { CrashClimbs(dest, d, r, r'); }
    else if r.phase.Start? || r.phase.SeenAbsent? || r.phase.ParentOk? || r.phase.Writing? { EarlyClimbs(dest, d, r, d', r'); }
    else { LateClimbs(dest, d, r, d', r'); }
  }

  lemma CrashClimbs(dest: string, d: Disk, r: Run, r': Run)
    requires r'.phase.Crashed?
    ensures Climbs(dest, d, r, r')
  {
  }

  lemma EarlyClimbs(dest: string, d: Disk, r: Run, d': Disk, r': Run)
    requires || CheckAbsent(dest, d, r, d', r') || CheckParent(d, r, d', r') || MakeTemporary(dest, d, r, d', r')
             || WriteSome(d, r, d', r') || SyncFile(d, r, d', r')
    ensures Climbs(dest, d, r, r')
  {
    hide TempName;
  }

  lemma LateClimbs(dest: string, d: Disk, r: Run, d': Disk, r': Run)
    requires Link(dest, d, r, d', r') || Unlink(d, r, d', r') || SyncParent(d, r, d', r') || CleanUp(d, r, d', r')
    ensures Climbs(dest, d, r, r')
  {
  }

  lemma StepClimbs(dest: string, s: State, s': State, p: nat)
    requires Next(dest, s, s') && p < |s.runs|
    ensures p < |s'.runs| == |s.runs| && (s'.runs[p] == s.runs[p] || Climbs(dest, s.disk, s.runs[p], s'.runs[p]))
  {
    hide RunStep, Climbs;
    var q: nat :| StepOf(dest, s, s', q);
    if q == p { RunClimbs(dest, s.disk, s.runs[p], s'.disk, s'.runs[p]); }
  }

  ghost predicate PassedAt(dest: string, trace: seq<State>, p: nat, k: nat, t: nat) {
    && t < |trace| && p < |trace[t].runs|
    && StageOf(trace[t].runs[p].phase) == k && Met(dest, k, trace[t].disk, trace[t].runs[p])
  }

  lemma {:induction false} Stages(dest: string, trace: seq<State>, n: nat, p: nat) returns (times: seq<nat>)
    requires Behaviour(dest, trace) && n < |trace| && p < |trace[0].runs|
    ensures |trace[n].runs| == |trace[0].runs|
    ensures StageOf(trace[n].runs[p].phase) > 0 ==> |times| == StageOf(trace[n].runs[p].phase) - 1
    ensures forall i :: 0 <= i < |times| ==> times[i] < n && PassedAt(dest, trace, p, i + 1, times[i])
    ensures forall i, j :: 0 <= i < j < |times| ==> times[i] < times[j]
  {
    hide Next, Met;
    times := [];
    if n > 0 {
      times := Stages(dest, trace, n - 1, p);
      assert StepAt(dest, trace, n - 1);
      StepClimbs(dest, trace[n - 1], trace[n], p);
      var k, k' := StageOf(trace[n - 1].runs[p].phase), StageOf(trace[n].runs[p].phase);
      if k' == 0 { times := []; }
      else if k' == k + 1 && k > 0 { times := times + [n - 1]; }
    }
  }

  ghost predicate At(trace: seq<State>, t: nat, p: nat, phase: Phase) {
    t < |trace| && p < |trace[t].runs| && trace[t].runs[p].phase == phase
  }

  lemma PhaseOfStage(p: Phase)
    ensures StageOf(p) == 1 ==> p == Start
    ensures StageOf(p) == 4 ==> p == Writing
    ensures StageOf(p) == 5 ==> p == Synced
    ensures StageOf(p) == 6 ==> p == Linked
    ensures StageOf(p) == 7 ==> p == Unlinked
  {
  }

  /** A run that succeeded: it saw the destination absent at `a`; the temporary file held everything when it was synced
      at `w`; the name was still free when it linked at `l`; it removed the temporary name at `u`; and it synced the
      directory at `d`. */
  lemma SuccessIsSynced(dest: string, trace: seq<State>, n: nat, p: nat) returns (a: nat, w: nat, l: nat, u: nat, d: nat)
    requires Behaviour(dest, trace) && n < |trace| && p < |trace[0].runs|
    requires |trace[n].runs| == |trace[0].runs| && trace[n].runs[p].phase == Succeeded
    ensures a < w < l < u < d < n
    ensures At(trace, a, p, Start) && dest !in trace[a].disk.names
    ensures At(trace, w, p, Writing) && trace[w].runs[p].written == |trace[w].runs[p].content|
    ensures At(trace, l, p, Synced) && dest !in trace[l].disk.names && trace[l].runs[p].temp in trace[l].disk.names
    ensures At(trace, u, p, Linked) && At(trace, d, p, Unlinked)
  {
    hide Behaviour, StageOf;
    assert StageOf(Succeeded) == 9 by { SucceededIsLast(); }
    var times := Stages(dest, trace, n, p);
    forall k | 0 <= k < 8 ensures PassedAt(dest, trace, p, k + 1, times[k]) {}
    a, w, l, u, d := times[0], times[3], times[4], times[5], times[6];
    PhaseOfStage(trace[a].runs[p].phase);
    PhaseOfStage(trace[w].runs[p].phase);
    PhaseOfStage(trace[l].runs[p].phase);
    PhaseOfStage(trace[u].runs[p].phase);
    PhaseOfStage(trace[d].runs[p].phase);
  }

  lemma SucceededIsLast()
    ensures StageOf(Succeeded) == 9
  {
  }
}
