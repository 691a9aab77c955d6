/** The runtime section of a benchmark report: `_runtime_phase_reports` compiles it, `_validate_runtime` accepts it
    (tools/rel001_benchmark.py). */
module BenchmarkRuntime {
  import opened Wrappers
  import opened TextOrder

  datatype Identity = Identity(ecosystem: string, phase: string)

  datatype PhaseReport = PhaseReport(id: Identity, samples: seq<int>, minimum: int, median: int, maximum: int)

  datatype RuntimeError =
    | MissingRuntime | RuntimeSummaryMismatch | InvalidUnit | MissingField | InvalidType | DuplicateField
    | RuntimeMatrixMismatch
    | EmptySamples  // `min` of an empty list raises ValueError

  // ---------- Statistics ----------

  predicate AllPositive(s: seq<int>) { forall i :: 0 <= i < |s| ==> s[i] > 0 }

  function Min(s: seq<int>): (m: int)
    requires s != []
    ensures m in s && forall i :: 0 <= i < |s| ==> m <= s[i]
  {
    if |s| == 1 then s[0]
    else
      var m := Min(s[1..]);
      assert forall i :: 1 <= i < |s| ==> s[i] == s[1..][i - 1];
      if s[0] <= m then s[0] else m
  }

  function Max(s: seq<int>): (m: int)
    requires s != []
    ensures m in s && forall i :: 0 <= i < |s| ==> s[i] <= m
  {
    if |s| == 1 then s[0]
    else
      var m := Max(s[1..]);
      assert forall i :: 1 <= i < |s| ==> s[i] == s[1..][i - 1];
      if s[0] >= m then s[0] else m
  }

  predicate Ascending(s: seq<int>) { forall i, j :: 0 <= i < j < |s| ==> s[i] <= s[j] }

  function Insert(x: int, s: seq<int>): (r: seq<int>)
    requires Ascending(s)
    ensures Ascending(r) && |r| == |s| + 1
    ensures r[0] == if s == [] || x <= s[0] then x else s[0]
  {
    if s == [] || x <= s[0] then [x] + s
    else
      var rest := Insert(x, s[1..]);
      assert |s| > 1 ==> s[0] <= s[1] == s[1..][0];
      AscendingBelow(s[0], rest);
      [s[0]] + rest
  }

  lemma AscendingBelow(h: int, rest: seq<int>)
    requires Ascending(rest) && (rest == [] || h <= rest[0])
    ensures Ascending([h] + rest)
  {
  }

  lemma {:induction false} InsertKeeps(x: int, s: seq<int>)
    requires Ascending(s)
    ensures multiset(Insert(x, s)) == multiset(s) + multiset{x}
  {
    if s != [] && x > s[0] {
      InsertKeeps(x, s[1..]);
      assert s == [s[0]] + s[1..];
    }
  }

  /** `sorted`. */
  function Sort(s: seq<int>): (r: seq<int>)
    ensures Ascending(r) && |r| == |s|
  {
    if s == [] then [] else Insert(s[0], Sort(s[1..]))
  }

  lemma {:induction false} SortKeeps(s: seq<int>)
    ensures multiset(Sort(s)) == multiset(s)
  {
    hide Insert, Ascending;
    if s != [] {
      var rest := s[1..];
      SortKeeps(rest);
      InsertKeeps(s[0], Sort(rest));
      assert s == [s[0]] + rest;
      assert multiset(s) == multiset{s[0]} + multiset(rest);
    }
  }

  /** `int(statistics.median(s))` of positive integers: the mean of the middle pair, rounded down. */
  function Median(s: seq<int>): int
    requires s != [] && AllPositive(s)
  {
    var t, n := Sort(s), |s|;
    if n % 2 == 1 then t[n / 2] else (t[n / 2 - 1] + t[n / 2]) / 2
  }

  function AtMost(s: seq<int>, m: int): nat {
    if s == [] then 0 else (if s[0] <= m then 1 else 0) + AtMost(s[1..], m)
  }

  function AtLeast(s: seq<int>, m: int): nat {
    if s == [] then 0 else (if s[0] >= m then 1 else 0) + AtLeast(s[1..], m)
  }

  lemma {:induction false} CountInsert(x: int, s: seq<int>, m: int)
    requires Ascending(s)
    ensures AtMost(Insert(x, s), m) == AtMost([x], m) + AtMost(s, m)
    ensures AtLeast(Insert(x, s), m) == AtLeast([x], m) + AtLeast(s, m)
  {
    if s == [] || x <= s[0] {
      assert ([x] + s)[1..] == s;
    } else {
      CountInsert(x, s[1..], m);
      assert ([s[0]] + Insert(x, s[1..]))[1..] == Insert(x, s[1..]);
    }
  }

  lemma {:induction false} CountSort(s: seq<int>, m: int)
    ensures AtMost(Sort(s), m) == AtMost(s, m) && AtLeast(Sort(s), m) == AtLeast(s, m)
  {
    if s != [] {
      CountSort(s[1..], m);
      CountInsert(s[0], Sort(s[1..]), m);
    }
  }

  lemma {:induction false} CountAscending(t: seq<int>, k: nat, m: int)
    requires Ascending(t) && k < |t|
    ensures t[k] <= m ==> AtMost(t, m) >= k + 1
    ensures t[k] >= m ==> AtLeast(t, m) >= |t| - k
  {
    if k > 0 {
      CountAscending(t[1..], k - 1, m);
    } else if |t| > 1 {
      CountAscending(t[1..], 0, m);
    }
  }

  /** At least half of the samples are at most the median, and at least half are at least it. */
  lemma MedianSplits(s: seq<int>)
    requires s != [] && AllPositive(s)
    ensures 2 * AtMost(s, Median(s)) >= |s| && 2 * AtLeast(s, Median(s)) >= |s|
  {
    var t, n, m := Sort(s), |s|, Median(s);
    CountSort(s, m);
    CountAscending(t, n / 2, m);
    if n % 2 == 0 {
      assert t[n / 2 - 1] <= t[n / 2];
      CountAscending(t, n / 2 - 1, m);
    }
  }

  lemma MedianBetween(s: seq<int>)
    requires s != [] && AllPositive(s)
    ensures 0 < Min(s) <= Median(s) <= Max(s)
  {
    var t := Sort(s);
    SortKeeps(s);
    forall i | 0 <= i < |t| ensures Min(s) <= t[i] <= Max(s) {
      assert t[i] in multiset(t);
      var k :| 0 <= k < |s| && s[k] == t[i];
    }
  }

  lemma {:induction false} AscendingUnique(a: seq<int>, b: seq<int>)
    requires Ascending(a) && Ascending(b) && multiset(a) == multiset(b)
    ensures a == b
  {
    if a != [] {
      HeadIsLeast(a, b);
      HeadIsLeast(b, a);
      assert a == [a[0]] + a[1..] && b == [b[0]] + b[1..];
      assert multiset(a[1..]) == multiset(a) - multiset{a[0]};
      AscendingUnique(a[1..], b[1..]);
    } else {
      assert |multiset(b)| == 0;
    }
  }

  lemma HeadIsLeast(a: seq<int>, b: seq<int>)
    requires a != [] && Ascending(a) && multiset(a) == multiset(b)
    ensures b != [] && a[0] <= b[0]
  {
    assert a[0] in multiset(b);
    assert b[0] in multiset(a);
    var k :| 0 <= k < |a| && a[k] == b[0];
  }

  lemma AscendingBounds(t: seq<int>, x: int)
    requires Ascending(t) && x in t
    ensures t[0] <= x <= t[|t| - 1]
  {
  }

  lemma MinMaxBounds(s: seq<int>, x: int)
    requires x in s
    ensures Min(s) <= x <= Max(s)
  {
  }

  lemma EndsOfSort(s: seq<int>)
    requires s != []
    ensures Min(s) == Sort(s)[0] && Max(s) == Sort(s)[|s| - 1]
  {
    hide Min, Max, Sort, Ascending;
    var t := Sort(s);
    var low, high := t[0], t[|s| - 1];
    SortKeeps(s);
    InBoth(s, t, Min(s));
    InBoth(s, t, Max(s));
    InBoth(t, s, low);
    InBoth(t, s, high);
    AscendingBounds(t, Min(s));
    AscendingBounds(t, Max(s));
    MinMaxBounds(s, low);
    MinMaxBounds(s, high);
  }

  lemma InBoth(a: seq<int>, b: seq<int>, x: int)
    requires multiset(a) == multiset(b) && x in a
    ensures x in b
  {
    assert x in multiset(a);
  }

  /** The summary does not depend on the order in which the samples were taken. */
  lemma SummaryByContents(a: seq<int>, b: seq<int>)
    requires a != [] && AllPositive(a) && multiset(a) == multiset(b)
    ensures b != [] && AllPositive(b)
    ensures Min(a) == Min(b) && Median(a) == Median(b) && Max(a) == Max(b)
  {
    hide Min, Max, Sort, Ascending;
    assert |multiset(a)| == |a| && |multiset(b)| == |b|;
    forall i | 0 <= i < |b| ensures b[i] > 0 { InBoth(b, a, b[i]); }
    SortKeeps(a);
    SortKeeps(b);
    AscendingUnique(Sort(a), Sort(b));
    EndsOfSort(a);
    EndsOfSort(b);
  }

  // ---------- Order of identities ----------

  predicate Before(a: Identity, b: Identity) {
    Less(a.ecosystem, b.ecosystem) || (a.ecosystem == b.ecosystem && Less(a.phase, b.phase))
  }

  predicate InOrder(ids: seq<Identity>) { forall i, j :: 0 <= i < j < |ids| ==> Before(ids[i], ids[j]) }

  function Tagged(ecosystem: string, phases: seq<string>): (ids: seq<Identity>)
    ensures |ids| == |phases| && forall i :: 0 <= i < |phases| ==> ids[i] == Identity(ecosystem, phases[i])
  {
    seq(|phases|, i requires 0 <= i < |phases| => Identity(ecosystem, phases[i]))
  }

  /** All identities, one ecosystem after another, each with its own phases. */
  function Blocks(ecosystems: seq<string>, phases: string -> seq<string>): seq<Identity> {
    if ecosystems == [] then []
    else Tagged(ecosystems[0], phases(ecosystems[0])) + Blocks(ecosystems[1..], phases)
  }

  lemma {:induction false} BlocksMembers(ecosystems: seq<string>, phases: string -> seq<string>, id: Identity)
    ensures id in Blocks(ecosystems, phases) <==> id.ecosystem in ecosystems && id.phase in phases(id.ecosystem)
  {
    if ecosystems != [] {
      BlocksMembers(ecosystems[1..], phases, id);
      var first := phases(ecosystems[0]);
      assert ecosystems == [ecosystems[0]] + ecosystems[1..];
      if id.ecosystem == ecosystems[0] && id.phase in first {
        var i :| 0 <= i < |first| && first[i] == id.phase;
        assert Tagged(ecosystems[0], first)[i] == id;
      }
    }
  }

  lemma {:induction false} BlocksInOrder(ecosystems: seq<string>, phases: string -> seq<string>)
    requires StrictlySorted(ecosystems) && forall e :: e in ecosystems ==> StrictlySorted(phases(e))
    ensures InOrder(Blocks(ecosystems, phases))
  {
    if ecosystems != [] {
      var a, b := Tagged(ecosystems[0], phases(ecosystems[0])), Blocks(ecosystems[1..], phases);
      BlocksInOrder(ecosystems[1..], phases);
      assert StrictlySorted(phases(ecosystems[0]));
      forall i, j | 0 <= i < |a| && 0 <= j < |b| ensures Before(a[i], b[j]) {
        BlocksMembers(ecosystems[1..], phases, b[j]);
        var k :| 0 <= k < |ecosystems[1..]| && ecosystems[1..][k] == b[j].ecosystem;
        assert Less(ecosystems[0], ecosystems[k + 1]);
      }
      OrderedConcat(a, b);
    }
  }

  lemma OrderedConcat(a: seq<Identity>, b: seq<Identity>)
    requires InOrder(a) && InOrder(b)
    requires forall i, j :: 0 <= i < |a| && 0 <= j < |b| ==> Before(a[i], b[j])
    ensures InOrder(a + b)
  {
    hide Before;
    var c := a + b;
    forall i, j | 0 <= i < j < |c| ensures Before(c[i], c[j]) {
      if i < |a| <= j { assert Before(a[i], b[j - |a|]); }
      else if |a| <= i { assert Before(b[i - |a|], b[j - |a|]); }
      else { assert Before(a[i], a[j]); }
    }
  }

  /** `sorted(runtime_samples)`: pairs compare by ecosystem, then by phase. */
  function SortIdentities(ids: set<Identity>): seq<Identity> {
    Blocks(SortKeys(set id | id in ids :: id.ecosystem),
           e => SortKeys(set id | id in ids && id.ecosystem == e :: id.phase))
  }

  /** The sort lists exactly the identities given, in strict order. */
  lemma SortIdentitiesSorts(ids: set<Identity>)
    ensures InOrder(SortIdentities(ids))
    ensures forall id :: id in SortIdentities(ids) <==> id in ids
  {
    var ecosystems := SortKeys(set id | id in ids :: id.ecosystem);
    var phases := e => SortKeys(set id: Identity | id in ids && id.ecosystem == e :: id.phase);
    assert SortIdentities(ids) == Blocks(ecosystems, phases);
    BlocksInOrder(ecosystems, phases);
    forall id ensures id in Blocks(ecosystems, phases) <==> id in ids {
      BlocksMembers(ecosystems, phases, id);
      assert id == Identity(id.ecosystem, id.phase);
    }
  }

  lemma BeforeOnce(a: Identity, b: Identity)
    requires Before(a, b)
    ensures a != b && !Before(b, a)
  {
    LessTotal(a.ecosystem, b.ecosystem);
    LessTotal(a.phase, b.phase);
  }

  lemma {:induction false} InOrderUnique(a: seq<Identity>, b: seq<Identity>)
    requires InOrder(a) && InOrder(b) && forall id :: id in a <==> id in b
    ensures a == b
  {
    hide Before;
    assert |b| > 0 ==> b[0] in a;
    if a != [] {
      assert a[0] in b;
      SameHead(a, b);
      forall id ensures id in a[1..] <==> id in b[1..] {
        TailOf(a, id);
        TailOf(b, id);
      }
      InOrderUnique(a[1..], b[1..]);
    }
  }

  lemma SameHead(a: seq<Identity>, b: seq<Identity>)
    requires InOrder(a) && InOrder(b) && a != [] && b != [] && a[0] in b && b[0] in a
    ensures a[0] == b[0]
  {
    hide Before;
    var i :| 0 <= i < |b| && b[i] == a[0];
    var j :| 0 <= j < |a| && a[j] == b[0];
    if i > 0 && j > 0 {
      BeforeOnce(a[0], a[j]);
      assert false;
    }
  }

  lemma TailOf(a: seq<Identity>, id: Identity)
    requires InOrder(a) && a != []
    ensures id in a[1..] <==> id in a && id != a[0]
  {
    hide Before;
    assert a == [a[0]] + a[1..];
    if id in a[1..] {
      var k :| 0 <= k < |a[1..]| && a[1..][k] == id;
      assert Before(a[0], a[k + 1]);
      BeforeOnce(a[0], a[k + 1]);
    }
  }

  // ---------- The expected matrix ----------

  const RUNTIME_LANES: seq<string> := ["go_http", "go_platform", "python", "typescript_fastify"]

  const PHASE_NAMES: seq<string> := ["copy_source", "manifest_recheck", "native_post", "native_pre", "workflow"]

  /** `_EXPECTED_RUNTIME_PHASES`. */
  function ExpectedPhases(): seq<Identity> { Blocks(RUNTIME_LANES, _ => PHASE_NAMES) }

  lemma {:induction false} SharedPrefix(p: string, a: string, b: string)
    requires Less(a, b)
    ensures Less(p + a, p + b)
  {
    if p == "" {
      assert p + a == a && p + b == b;
    } else {
      SharedPrefix(p[1..], a, b);
      assert (p + a)[1..] == p[1..] + a && (p + b)[1..] == p[1..] + b;
    }
  }

  predicate Rises(xs: seq<string>, i: nat)
    requires i + 1 < |xs|
  {
    Less(xs[i], xs[i + 1])
  }

  lemma {:induction false} AdjacentSorted(xs: seq<string>)
    requires forall i: nat :: i + 1 < |xs| ==> Rises(xs, i)
    ensures StrictlySorted(xs)
  {
    if |xs| > 1 {
      var rest := xs[1..];
      forall i: nat | i + 1 < |rest| ensures Rises(rest, i) { assert Rises(xs, i + 1); }
      AdjacentSorted(rest);
      assert Rises(xs, 0);
      forall i, j | 0 <= i < j < |xs| ensures Less(xs[i], xs[j]) {
        if i > 0 {
          assert Less(rest[i - 1], rest[j - 1]);
        } else if j > 1 {
          assert Less(rest[0], rest[j - 1]);
          LessTransitive(xs[0], xs[1], xs[j]);
        }
      }
    }
  }

  lemma LanesSorted()
    ensures StrictlySorted(RUNTIME_LANES)
  {
    SharedPrefix("go_", "http", "platform");
    assert "go_" + "http" == "go_http" && "go_" + "platform" == "go_platform";
    AdjacentSorted(RUNTIME_LANES);
  }

  lemma NativeOrder()
    ensures Less("native_post", "native_pre")
  {
    SharedPrefix("native_p", "ost", "re");
    assert "native_p" + "ost" == "native_post" && "native_p" + "re" == "native_pre";
  }

  lemma PhaseNamesSorted()
    ensures StrictlySorted(PHASE_NAMES)
  {
    NativeOrder();
    AdjacentSorted(PHASE_NAMES);
  }

  lemma ExpectedInOrder()
    ensures InOrder(ExpectedPhases())
  {
    LanesSorted();
    PhaseNamesSorted();
    BlocksInOrder(RUNTIME_LANES, _ => PHASE_NAMES);
  }

  /** Sorting yields the expected matrix exactly for the expected set of identities. */
  lemma SortedIsExpected(ids: set<Identity>)
    ensures SortIdentities(ids) == ExpectedPhases() <==> forall id :: id in ids <==> id in ExpectedPhases()
  {
    hide SortIdentities, ExpectedPhases, Before;
    SortIdentitiesSorts(ids);
    ExpectedInOrder();
    if forall id :: id in ids <==> id in ExpectedPhases() {
      InOrderUnique(SortIdentities(ids), ExpectedPhases());
    }
  }

  // ---------- Compiling ----------

  function Summarize(id: Identity, samples: seq<int>): PhaseReport
    requires samples != [] && AllPositive(samples)
  {
    PhaseReport(id, samples, Min(samples), Median(samples), Max(samples))
  }

  predicate Complete(samples: map<Identity, seq<int>>, repetitions: nat) {
    forall id :: id in samples ==> |samples[id]| == repetitions && AllPositive(samples[id])
  }

  function Reports(ids: seq<Identity>, samples: map<Identity, seq<int>>, repetitions: nat): (r: seq<PhaseReport>)
    requires repetitions > 0 && Complete(samples, repetitions) && forall i :: 0 <= i < |ids| ==> ids[i] in samples
    ensures |r| == |ids| && forall i :: 0 <= i < |ids| ==> r[i] == Summarize(ids[i], samples[ids[i]])
  {
    seq(|ids|, i requires 0 <= i < |ids| => Summarize(ids[i], samples[ids[i]]))
  }

  /** The identity that sorts first has no samples. */
  predicate FirstIsEmpty(samples: map<Identity, seq<int>>) {
    var ids := SortIdentities(samples.Keys);
    ids != [] && ids[0] in samples && samples[ids[0]] == []
  }

  lemma NoSamples()
    ensures AllPositive([])
  {
  }

  method RuntimePhaseReports(samples: map<Identity, seq<int>>, repetitions: nat)
    returns (r: Result<seq<PhaseReport>, RuntimeError>)
    ensures r.Ok? <==> samples != map[] && repetitions > 0 && Complete(samples, repetitions)
    ensures r.Ok? ==> forall id :: id in SortIdentities(samples.Keys) <==> id in samples
    ensures r.Ok? ==> r.value == Reports(SortIdentities(samples.Keys), samples, repetitions)
    ensures r == Err(MissingRuntime) <==> samples == map[]
    ensures r == Err(EmptySamples) <==> repetitions == 0 && FirstIsEmpty(samples)
  {
    hide SortIdentities, AllPositive, Min, Max, Median, InOrder;
    if samples == map[] { return Err(MissingRuntime); }
    var ids := SortIdentities(samples.Keys);
    SortIdentitiesSorts(samples.Keys);
    assert ids != [] by {
      var id :| id in samples;
      assert id in samples.Keys && id in ids;
    }
    NoSamples();
    var reports: seq<PhaseReport> := [];
    for i := 0 to |ids|
      invariant |reports| == i && (i > 0 ==> repetitions > 0)
      invariant i > 0 || ids[0] in samples
      invariant forall k :: 0 <= k < i ==> |samples[ids[k]]| == repetitions && AllPositive(samples[ids[k]])
      invariant forall k :: 0 <= k < i ==> reports[k] == Summarize(ids[k], samples[ids[k]])
    {
      assert ids[i] in samples.Keys;
      var values := samples[ids[i]];
      if |values| != repetitions || !AllPositive(values) { return Err(RuntimeSummaryMismatch); }
      if values == [] { return Err(EmptySamples); }
      reports := reports + [PhaseReport(ids[i], values, Min(values), Median(values), Max(values))];
    }
    forall id | id in samples ensures |samples[id]| == repetitions && AllPositive(samples[id]) {
      assert id in samples.Keys && id in ids;
      var k :| 0 <= k < |ids| && ids[k] == id;
    }
    r := Ok(reports);
  }

  // ---------- Validating ----------

  /** The first complaint about one phase. */
  function CheckPhase(p: PhaseReport, repetitions: nat): Option<RuntimeError> {
    if p.id.ecosystem == "" || p.id.phase == "" then Some(InvalidType)
    else if !AllPositive(p.samples) then Some(InvalidType)
    else if |p.samples| != repetitions then Some(RuntimeSummaryMismatch)
    else if p.samples == [] then Some(EmptySamples)
    else if p.minimum <= 0 || p.median <= 0 || p.maximum <= 0 then Some(InvalidType)
    else if p != Summarize(p.id, p.samples) then Some(RuntimeSummaryMismatch)
    else None
  }

  function CheckPhases(phases: seq<PhaseReport>, repetitions: nat): Option<RuntimeError> {
    if phases == [] then None
    else
      var first := CheckPhase(phases[0], repetitions);
      if first.Some? then first else CheckPhases(phases[1..], repetitions)
  }

  function Identities(phases: seq<PhaseReport>): (ids: seq<Identity>)
    ensures |ids| == |phases| && forall i :: 0 <= i < |phases| ==> ids[i] == phases[i].id
  {
    seq(|phases|, i requires 0 <= i < |phases| => phases[i].id)
  }

  predicate DistinctIds(ids: seq<Identity>) { forall i, j :: 0 <= i < j < |ids| ==> ids[i] != ids[j] }

  function CheckRuntime(unit: string, phases: seq<PhaseReport>, repetitions: nat): Option<RuntimeError> {
    if unit != "nanoseconds" then Some(InvalidUnit)
    else if phases == [] then Some(MissingField)
    else if CheckPhases(phases, repetitions).Some? then CheckPhases(phases, repetitions)
    else if !DistinctIds(Identities(phases)) then Some(DuplicateField)
    else if Identities(phases) != ExpectedPhases() then Some(RuntimeMatrixMismatch)
    else None
  }

  method ValidateRuntime(unit: string, phases: seq<PhaseReport>, repetitions: nat) returns (error: Option<RuntimeError>)
    ensures error == CheckRuntime(unit, phases, repetitions)
  {
    hide AllPositive, Min, Max, Median, Summarize, ExpectedPhases, DistinctIds;
    if unit != "nanoseconds" { return Some(InvalidUnit); }
    if phases == [] { return Some(MissingField); }
    var identities: seq<Identity> := [];
    for i := 0 to |phases|
      invariant identities == Identities(phases[..i])
      invariant CheckPhases(phases[i..], repetitions) == CheckPhases(phases, repetitions)
    {
      var p := phases[i];
      assert phases[i..][0] == p && phases[i..][1..] == phases[i + 1..];
      if p.id.ecosystem == "" || p.id.phase == "" { return Some(InvalidType); }
      identities := identities + [p.id];
      if !AllPositive(p.samples) { return Some(InvalidType); }
      if |p.samples| != repetitions { return Some(RuntimeSummaryMismatch); }
      if p.samples == [] { return Some(EmptySamples); }
      if p.minimum <= 0 || p.median <= 0 || p.maximum <= 0 { return Some(InvalidType); }
      if p != Summarize(p.id, p.samples) { return Some(RuntimeSummaryMismatch); }
    }
    assert phases[..|phases|] == phases;
    if !DistinctIds(identities) { return Some(DuplicateField); }
    if identities != ExpectedPhases() { return Some(RuntimeMatrixMismatch); }
    error := None;
  }

  /** `min` of an empty list is reached exactly with no repetitions, at a first phase that is named. */
  lemma EmptySamplesIff(unit: string, phases: seq<PhaseReport>, repetitions: nat)
    ensures CheckRuntime(unit, phases, repetitions) == Some(EmptySamples) <==>
            && unit == "nanoseconds" && repetitions == 0 && phases != []
            && phases[0].id.ecosystem != "" && phases[0].id.phase != "" && phases[0].samples == []
  {
    hide Min, Max, Median, Summarize;
    FirstComplaint(phases, repetitions);
  }

  lemma {:induction false} FirstComplaint(phases: seq<PhaseReport>, repetitions: nat)
    ensures CheckPhases(phases, repetitions) == Some(EmptySamples) <==>
            repetitions == 0 && phases != [] && CheckPhase(phases[0], repetitions) == Some(EmptySamples)
  {
    hide Min, Max, Median, Summarize, AllPositive;
    if phases != [] { FirstComplaint(phases[1..], repetitions); }
  }

  lemma {:induction false} PhasesAccepted(phases: seq<PhaseReport>, repetitions: nat)
    ensures CheckPhases(phases, repetitions).None? <==>
            forall i :: 0 <= i < |phases| ==> CheckPhase(phases[i], repetitions).None?
  {
    hide CheckPhase;
    if phases != [] {
      PhasesAccepted(phases[1..], repetitions);
      assert forall i :: 0 < i < |phases| ==> phases[i] == phases[1..][i - 1];
    }
  }

  lemma SummaryAccepted(id: Identity, samples: seq<int>)
    requires id.ecosystem != "" && id.phase != "" && samples != [] && AllPositive(samples)
    ensures CheckPhase(Summarize(id, samples), |samples|).None?
  {
    hide Min, Max, Median;
    MedianBetween(samples);
  }

  lemma ExpectedAreNamed(id: Identity)
    requires id in ExpectedPhases()
    ensures id.ecosystem != "" && id.phase != ""
  {
    BlocksMembers(RUNTIME_LANES, _ => PHASE_NAMES, id);
  }

  lemma InOrderDistinct(ids: seq<Identity>)
    requires InOrder(ids)
    ensures DistinctIds(ids)
  {
    hide Before;
    forall i, j | 0 <= i < j < |ids| ensures ids[i] != ids[j] { BeforeOnce(ids[i], ids[j]); }
  }

  ghost predicate ExpectedKeys(samples: map<Identity, seq<int>>) {
    forall id :: id in samples <==> id in ExpectedPhases()
  }

  lemma ExpectedNotEmpty()
    ensures ExpectedPhases() != []
  {
    BlocksMembers(RUNTIME_LANES, _ => PHASE_NAMES, Identity(RUNTIME_LANES[0], PHASE_NAMES[0]));
  }

  /** What compiles is accepted exactly when it was measured over the expected matrix. */
  lemma CompiledIsAccepted(samples: map<Identity, seq<int>>, repetitions: nat)
    requires repetitions > 0 && Complete(samples, repetitions)
    ensures forall id :: id in SortIdentities(samples.Keys) <==> id in samples
    ensures CheckRuntime("nanoseconds", Reports(SortIdentities(samples.Keys), samples, repetitions), repetitions).None?
       <==> ExpectedKeys(samples)
  {
    hide SortIdentities, ExpectedPhases, Before, CheckPhase, Summarize, AllPositive;
    var ids := SortIdentities(samples.Keys);
    SortIdentitiesSorts(samples.Keys);
    var phases := Reports(ids, samples, repetitions);
    assert Identities(phases) == ids by { SummariesCarry(ids, samples, repetitions); }
    SortedIsExpected(samples.Keys);
    if ExpectedKeys(samples) {
      ExpectedInOrder();
      ExpectedNotEmpty();
      InOrderDistinct(ids);
      forall i | 0 <= i < |phases| ensures CheckPhase(phases[i], repetitions).None? {
        assert ids[i] in ExpectedPhases();
        ExpectedAreNamed(ids[i]);
        SummaryAccepted(ids[i], samples[ids[i]]);
      }
      PhasesAccepted(phases, repetitions);
    }
  }

  lemma SummariesCarry(ids: seq<Identity>, samples: map<Identity, seq<int>>, repetitions: nat)
    requires repetitions > 0 && Complete(samples, repetitions) && forall i :: 0 <= i < |ids| ==> ids[i] in samples
    ensures Identities(Reports(ids, samples, repetitions)) == ids
  {
  }

  function SamplesOf(phases: seq<PhaseReport>): map<Identity, seq<int>> {
    if phases == [] then map[]
    else SamplesOf(phases[1..])[phases[0].id := phases[0].samples]
  }

  lemma {:induction false} SamplesKeys(phases: seq<PhaseReport>, id: Identity)
    ensures id in SamplesOf(phases) <==> id in Identities(phases)
  {
    if phases != [] {
      assert Identities(phases) == [phases[0].id] + Identities(phases[1..]);
      SamplesKeys(phases[1..], id);
    }
  }

  lemma {:induction false} SamplesAt(phases: seq<PhaseReport>, i: nat)
    requires DistinctIds(Identities(phases)) && i < |phases|
    ensures phases[i].id in SamplesOf(phases) && SamplesOf(phases)[phases[i].id] == phases[i].samples
  {
    if i > 0 {
      var ids, rest := Identities(phases), Identities(phases[1..]);
      assert forall k :: 0 <= k < |rest| ==> rest[k] == ids[k + 1];
      SamplesAt(phases[1..], i - 1);
      assert ids[0] != ids[i];
    }
  }

  lemma SamplesComplete(phases: seq<PhaseReport>, repetitions: nat)
    requires DistinctIds(Identities(phases)) && CheckPhases(phases, repetitions).None?
    ensures Complete(SamplesOf(phases), repetitions)
  {
    hide AllPositive, Min, Max, Median, SamplesOf, Summarize, DistinctIds;
    var ids := Identities(phases);
    PhasesAccepted(phases, repetitions);
    forall id | id in SamplesOf(phases)
      ensures |SamplesOf(phases)[id]| == repetitions && AllPositive(SamplesOf(phases)[id])
    {
      SamplesKeys(phases, id);
      var i :| 0 <= i < |ids| && ids[i] == id;
      SamplesAt(phases, i);
    }
  }

  /** Nothing else is accepted: an accepted section is what its own samples compile to. */
  lemma AcceptedIsCompiled(unit: string, phases: seq<PhaseReport>, repetitions: nat)
    requires CheckRuntime(unit, phases, repetitions).None?
    ensures repetitions > 0 && Complete(SamplesOf(phases), repetitions) && ExpectedKeys(SamplesOf(phases))
    ensures forall id :: id in SortIdentities(SamplesOf(phases).Keys) <==> id in SamplesOf(phases)
    ensures phases == Reports(SortIdentities(SamplesOf(phases).Keys), SamplesOf(phases), repetitions)
  {
    hide SortIdentities, ExpectedPhases, Before, AllPositive, Min, Max, Median, SamplesOf, CheckPhases, DistinctIds;
    var samples, ids := SamplesOf(phases), Identities(phases);
    SamplesComplete(phases, repetitions);
    forall id ensures id in samples <==> id in ids { SamplesKeys(phases, id); }
    SortIdentitiesSorts(samples.Keys);
    SortedIsExpected(samples.Keys);
    PhasesAccepted(phases, repetitions);
    assert CheckPhase(phases[0], repetitions).None?;
    forall i | 0 <= i < |phases| ensures phases[i] == Summarize(ids[i], samples[ids[i]]) {
      SamplesAt(phases, i);
    }
  }
}
