/** The overhead section of a benchmark report: `_compile_overhead` builds it, `_validate_overhead` accepts it
    (tools/rel001_benchmark.py). */
module BenchmarkOverhead {
  import opened Wrappers
  import opened BenchmarkComponents

  /** The four accounted quantities. */
  datatype Unit = AuthoredBytes | AuthoredRecords | DerivedBytes | DerivedRecords

  type Accounting = map<Unit, int>

  datatype Bucket = Bucket(id: string, legacySourceBytes: int, counts: Accounting)

  datatype Ratio = Ratio(numerator: int, denominator: int)

  datatype OverheadTotals = OverheadTotals(
    legacySourceBytes: int, counts: Accounting, authoredToLegacy: Ratio, derivedToLegacy: Ratio)

  datatype Overhead = Overhead(
    accountingVersion: string, definitions: map<string, string>, components: seq<Bucket>,
    sharedPolicy: Accounting, changeLifecycle: Accounting, totals: OverheadTotals)

  datatype OverheadError =
    | UnsupportedVersion | AccountingDefinitionMismatch | OverheadSummaryMismatch | MissingCount | InvalidCount

  const ACCOUNTING_VERSION: string := "1.0.0"

  predicate Full(a: Accounting) { forall u: Unit :: u in a }

  predicate Nonnegative(a: Accounting) { forall u :: u in a ==> a[u] >= 0 }

  predicate Positive(a: Accounting) { forall u :: u in a ==> a[u] > 0 }

  // ---------- Sums ----------

  function LegacyBytes(buckets: seq<Bucket>): int {
    if buckets == [] then 0 else buckets[0].legacySourceBytes + LegacyBytes(buckets[1..])
  }

  predicate FullBuckets(buckets: seq<Bucket>) { forall i :: 0 <= i < |buckets| ==> Full(buckets[i].counts) }

  function Total(buckets: seq<Bucket>, u: Unit): int
    requires FullBuckets(buckets)
  {
    if buckets == [] then 0
    else
      assert Full(buckets[0].counts);
      assert forall i :: 0 <= i < |buckets| - 1 ==> buckets[1..][i] == buckets[i + 1];
      buckets[0].counts[u] + Total(buckets[1..], u)
  }

  function Allocated(buckets: seq<Bucket>, policy: Accounting, lifecycle: Accounting): Accounting
    requires FullBuckets(buckets) && Full(policy) && Full(lifecycle)
  {
    map u: Unit | true :: Total(buckets, u) + policy[u] + lifecycle[u]
  }

  function Totals(buckets: seq<Bucket>, policy: Accounting, lifecycle: Accounting): OverheadTotals
    requires FullBuckets(buckets) && Full(policy) && Full(lifecycle)
  {
    var legacy, counts := LegacyBytes(buckets), Allocated(buckets, policy, lifecycle);
    OverheadTotals(legacy, counts, Ratio(counts[AuthoredBytes], legacy), Ratio(counts[DerivedBytes], legacy))
  }

  lemma FourTotals(buckets: seq<Bucket>, u: Unit)
    requires FullBuckets(buckets) && |buckets| == 4
    ensures Total(buckets, u) == buckets[0].counts[u] + buckets[1].counts[u] + buckets[2].counts[u] + buckets[3].counts[u]
    ensures LegacyBytes(buckets) ==
            buckets[0].legacySourceBytes + buckets[1].legacySourceBytes + buckets[2].legacySourceBytes + buckets[3].legacySourceBytes
  {
    assert Full(buckets[0].counts) && Full(buckets[1].counts) && Full(buckets[2].counts) && Full(buckets[3].counts);
    var b1, b2, b3 := buckets[1..], buckets[2..], buckets[3..];
    assert b1[1..] == b2 && b2[1..] == b3 && b3[1..] == [];
    assert forall k :: 0 <= k < 3 ==> b1[k] == buckets[k + 1];
    assert forall k :: 0 <= k < 2 ==> b2[k] == buckets[k + 2];
    assert b3[0] == buckets[3];
    assert FullBuckets(b1) && FullBuckets(b2) && FullBuckets(b3);
    assert Total(buckets, u) == buckets[0].counts[u] + Total(b1, u);
    assert Total(b1, u) == buckets[1].counts[u] + Total(b2, u);
    assert Total(b2, u) == buckets[2].counts[u] + Total(b3, u);
    assert Total(b3, u) == buckets[3].counts[u] + Total([], u);
    assert LegacyBytes(b1) == buckets[1].legacySourceBytes + LegacyBytes(b2);
    assert LegacyBytes(b2) == buckets[2].legacySourceBytes + LegacyBytes(b3);
    assert LegacyBytes(b3) == buckets[3].legacySourceBytes + LegacyBytes([]);
  }

  /** The totals of four buckets and the two shared accountings, term by term. */
  ghost predicate Sums(t: OverheadTotals, b: seq<Bucket>, policy: Accounting, lifecycle: Accounting)
    requires |b| == 4 && FullBuckets(b) && Full(policy) && Full(lifecycle)
  {
    && Full(t.counts)
    && t.legacySourceBytes ==
         b[0].legacySourceBytes + b[1].legacySourceBytes + b[2].legacySourceBytes + b[3].legacySourceBytes
    && (forall u: Unit :: t.counts[u] ==
         b[0].counts[u] + b[1].counts[u] + b[2].counts[u] + b[3].counts[u] + policy[u] + lifecycle[u])
    && t.authoredToLegacy.numerator == t.counts[AuthoredBytes] && t.authoredToLegacy.denominator == t.legacySourceBytes
    && t.derivedToLegacy.numerator == t.counts[DerivedBytes] && t.derivedToLegacy.denominator == t.legacySourceBytes
  }

  lemma TotalsAreSums(b: seq<Bucket>, policy: Accounting, lifecycle: Accounting)
    requires |b| == 4 && FullBuckets(b) && Full(policy) && Full(lifecycle)
    ensures Sums(Totals(b, policy, lifecycle), b, policy, lifecycle)
  {
    hide Total, LegacyBytes;
    forall u: Unit ensures Total(b, u) == b[0].counts[u] + b[1].counts[u] + b[2].counts[u] + b[3].counts[u] { FourTotals(b, u); }
    FourTotals(b, AuthoredBytes);
  }

  // ---------- Compiling ----------

  /** Every lane has its component and a full accounting, as the code's lookups require. */
  predicate Prepared(components: map<Lane, Component>, accounting: map<Lane, Accounting>) {
    forall lane: Lane :: lane in components && lane in accounting && Full(accounting[lane])
  }

  function Buckets(lanes: seq<Lane>, components: map<Lane, Component>, accounting: map<Lane, Accounting>): (r: seq<Bucket>)
    requires Prepared(components, accounting)
    ensures |r| == |lanes| && FullBuckets(r)
    ensures forall i :: 0 <= i < |lanes| ==>
      r[i] == Bucket(components[lanes[i]].id, components[lanes[i]].source.byteCount, accounting[lanes[i]])
  {
    seq(|lanes|, i requires 0 <= i < |lanes| =>
      Bucket(components[lanes[i]].id, components[lanes[i]].source.byteCount, accounting[lanes[i]]))
  }

  function Compiled(definitions: map<string, string>, buckets: seq<Bucket>, policy: Accounting, lifecycle: Accounting): Overhead
    requires FullBuckets(buckets) && Full(policy) && Full(lifecycle)
  {
    Overhead(ACCOUNTING_VERSION, definitions, buckets, policy, lifecycle, Totals(buckets, policy, lifecycle))
  }

  /** The totals, written out lane by lane. */
  predicate LaneSums(t: OverheadTotals, components: map<Lane, Component>, accounting: map<Lane, Accounting>, policy: Accounting, lifecycle: Accounting)
    requires Prepared(components, accounting) && Full(policy) && Full(lifecycle)
  {
    && Full(t.counts)
    && (forall u: Unit :: t.counts[u] == accounting[Python][u] + accounting[TypescriptFastify][u] + accounting[GoHttp][u] +
                                         accounting[GoPlatform][u] + policy[u] + lifecycle[u])
    && t.legacySourceBytes == components[Python].source.byteCount + components[TypescriptFastify].source.byteCount +
                              components[GoHttp].source.byteCount + components[GoPlatform].source.byteCount
    && t.authoredToLegacy.numerator == t.counts[AuthoredBytes] && t.authoredToLegacy.denominator == t.legacySourceBytes
    && t.derivedToLegacy.numerator == t.counts[DerivedBytes] && t.derivedToLegacy.denominator == t.legacySourceBytes
  }

  lemma InLanes(buckets: seq<Bucket>, components: map<Lane, Component>, accounting: map<Lane, Accounting>, policy: Accounting, lifecycle: Accounting)
    requires Prepared(components, accounting) && Full(policy) && Full(lifecycle)
    requires buckets == Buckets(LANES, components, accounting)
    ensures LaneSums(Totals(buckets, policy, lifecycle), components, accounting, policy, lifecycle)
    ensures Totals(buckets, policy, lifecycle).legacySourceBytes == LegacyBytes(buckets)
  {
    hide Total, Allocated;
    TotalsAreSums(buckets, policy, lifecycle);
    assert buckets[0] == Bucket(components[Python].id, components[Python].source.byteCount, accounting[Python]);
    assert buckets[1].counts == accounting[TypescriptFastify] && buckets[2].counts == accounting[GoHttp]
        && buckets[3].counts == accounting[GoPlatform];
  }

  method CompileOverhead(
    definitions: map<string, string>, components: map<Lane, Component>, accounting: map<Lane, Accounting>,
    policy: Accounting, lifecycle: Accounting, legacyBytes: int
  ) returns (r: Result<Overhead, OverheadError>)
    requires Prepared(components, accounting) && Full(policy) && Full(lifecycle)
    ensures r == if LegacyBytes(Buckets(LANES, components, accounting)) != legacyBytes then Err(OverheadSummaryMismatch)
                 else Ok(Compiled(definitions, Buckets(LANES, components, accounting), policy, lifecycle))
    ensures r.Ok? ==> LaneSums(r.value.totals, components, accounting, policy, lifecycle)
    ensures r.Ok? ==> r.value.totals.legacySourceBytes == legacyBytes && r.value.accountingVersion == "1.0.0"
    ensures r.Ok? ==> r.value.definitions == definitions && r.value.sharedPolicy == policy && r.value.changeLifecycle == lifecycle
  {
    hide Totals, Full;
    var buckets: seq<Bucket> := [];
    for i := 0 to |LANES|
      invariant buckets == Buckets(LANES[..i], components, accounting)
    {
      var lane := LANES[i];
      buckets := buckets + [Bucket(components[lane].id, components[lane].source.byteCount, accounting[lane])];
      assert buckets == Buckets(LANES[..i + 1], components, accounting);
    }
    assert LANES[..|LANES|] == LANES;
    if LegacyBytes(buckets) != legacyBytes { return Err(OverheadSummaryMismatch); }
    InLanes(buckets, components, accounting, policy, lifecycle);
    r := Ok(Overhead(ACCOUNTING_VERSION, definitions, buckets, policy, lifecycle, Totals(buckets, policy, lifecycle)));
  }

  // ---------- Validating ----------

  function CheckCounts(a: Accounting): Option<OverheadError> {
    if !Full(a) then Some(MissingCount) else if !Nonnegative(a) then Some(InvalidCount) else None
  }

  /** One component's bucket against the component it accounts for. */
  function CheckBucket(b: Bucket, c: Component): Option<OverheadError> {
    if !Full(b.counts) then Some(MissingCount)
    else if b.id == "" || b.legacySourceBytes <= 0 || !Nonnegative(b.counts) then Some(InvalidCount)
    else if b.id != c.id || b.legacySourceBytes != c.source.byteCount then Some(OverheadSummaryMismatch)
    else None
  }

  function CheckBuckets(buckets: seq<Bucket>, components: seq<Component>): Option<OverheadError>
    requires |buckets| == |components|
  {
    if buckets == [] then None
    else
      var first := CheckBucket(buckets[0], components[0]);
      if first.Some? then first else CheckBuckets(buckets[1..], components[1..])
  }

  lemma {:induction false} BucketsAccepted(buckets: seq<Bucket>, components: seq<Component>)
    requires |buckets| == |components|
    ensures CheckBuckets(buckets, components).None? <==>
            forall i :: 0 <= i < |buckets| ==> CheckBucket(buckets[i], components[i]).None?
    ensures CheckBuckets(buckets, components).None? ==> FullBuckets(buckets)
  {
    hide Full, Nonnegative;
    if buckets != [] {
      BucketsAccepted(buckets[1..], components[1..]);
      assert forall i :: 0 < i < |buckets| ==> buckets[i] == buckets[1..][i - 1] && components[i] == components[1..][i - 1];
      forall i | 0 <= i < |buckets| && CheckBuckets(buckets, components).None?
        ensures CheckBucket(buckets[i], components[i]).None? && Full(buckets[i].counts)
      {
        if i > 0 { assert CheckBucket(buckets[1..][i - 1], components[1..][i - 1]).None?; }
      }
    }
  }

  function CheckOverheadTotals(o: Overhead): Option<OverheadError>
    requires FullBuckets(o.components) && Full(o.sharedPolicy) && Full(o.changeLifecycle)
  {
    var t := o.totals;
    var legacy := LegacyBytes(o.components);
    if !Full(t.counts) then Some(MissingCount)
    else if t.legacySourceBytes <= 0 || !Positive(t.counts) then Some(InvalidCount)
    else if t.legacySourceBytes != legacy || t.counts != Allocated(o.components, o.sharedPolicy, o.changeLifecycle)
    then Some(OverheadSummaryMismatch)
    else if t.authoredToLegacy != Ratio(t.counts[AuthoredBytes], t.legacySourceBytes) then Some(OverheadSummaryMismatch)
    else if t.derivedToLegacy != Ratio(t.counts[DerivedBytes], t.legacySourceBytes) then Some(OverheadSummaryMismatch)
    else None
  }

  function CheckOverhead(o: Overhead, definitions: map<string, string>, components: seq<Component>): Option<OverheadError> {
    if o.accountingVersion != ACCOUNTING_VERSION then Some(UnsupportedVersion)
    else if o.definitions != definitions then Some(AccountingDefinitionMismatch)
    else if |o.components| != |components| then Some(OverheadSummaryMismatch)
    else if CheckBuckets(o.components, components).Some? then CheckBuckets(o.components, components)
    else if CheckCounts(o.sharedPolicy).Some? then CheckCounts(o.sharedPolicy)
    else if CheckCounts(o.changeLifecycle).Some? then CheckCounts(o.changeLifecycle)
    else
      BucketsAccepted(o.components, components);
      CheckOverheadTotals(o)
  }

  /** A section of four full buckets whose totals are their sums. */
  ghost predicate SumsUp(o: Overhead) {
    && |o.components| == 4 && FullBuckets(o.components) && Full(o.sharedPolicy) && Full(o.changeLifecycle)
    && Sums(o.totals, o.components, o.sharedPolicy, o.changeLifecycle)
  }

  lemma AcceptedSums(o: Overhead)
    requires FullBuckets(o.components) && Full(o.sharedPolicy) && Full(o.changeLifecycle) && |o.components| == 4
    ensures CheckOverheadTotals(o).None? ==> Sums(o.totals, o.components, o.sharedPolicy, o.changeLifecycle)
  {
    hide Total, Full, Positive, LegacyBytes;
    TotalsAreSums(o.components, o.sharedPolicy, o.changeLifecycle);
  }

  method ValidateOverhead(o: Overhead, definitions: map<string, string>, components: seq<Component>)
    returns (error: Option<OverheadError>)
    ensures error == CheckOverhead(o, definitions, components)
    ensures error.None? && |components| == 4 ==> SumsUp(o)
    ensures error.None? ==> o.accountingVersion == "1.0.0" && o.definitions == definitions
  {
    hide Full, Nonnegative, Positive, Allocated, CheckOverheadTotals, Sums;
    if o.accountingVersion != ACCOUNTING_VERSION { return Some(UnsupportedVersion); }
    if o.definitions != definitions { return Some(AccountingDefinitionMismatch); }
    if |o.components| != |components| { return Some(OverheadSummaryMismatch); }
    for i := 0 to |components|
      invariant CheckBuckets(o.components[i..], components[i..]) == CheckBuckets(o.components, components)
    {
      var b, c := o.components[i], components[i];
      assert o.components[i..][1..] == o.components[i + 1..] && components[i..][1..] == components[i + 1..];
      if !Full(b.counts) { return Some(MissingCount); }
      if b.id == "" || b.legacySourceBytes <= 0 || !Nonnegative(b.counts) { return Some(InvalidCount); }
      if b.id != c.id || b.legacySourceBytes != c.source.byteCount { return Some(OverheadSummaryMismatch); }
    }
    assert CheckBuckets(o.components, components).None?;
    BucketsAccepted(o.components, components);
    error := CheckCounts(o.sharedPolicy);
    if error.Some? { return; }
    error := CheckCounts(o.changeLifecycle);
    if error.Some? { return; }
    error := CheckOverheadTotals(o);
    if |components| == 4 { AcceptedSums(o); }
  }

  // ---------- Compiler and validator agree ----------

  /** The components of all lanes, each accepted in its lane. */
  ghost predicate LanesAccepted(components: map<Lane, Component>) {
    forall lane: Lane :: lane in components && CheckComponent(components[lane], lane).None?
  }

  function InLaneOrder(components: map<Lane, Component>): (r: seq<Component>)
    requires forall lane: Lane :: lane in components
    ensures |r| == |LANES| && forall i :: 0 <= i < |LANES| ==> r[i] == components[LANES[i]]
  {
    seq(|LANES|, i requires 0 <= i < |LANES| => components[LANES[i]])
  }

  lemma AcceptedHasIdentity(c: Component, lane: Lane)
    requires CheckComponent(c, lane).None?
    ensures c.id == ComponentId(lane) && c.id != "" && c.source.byteCount > 0
  {
    hide Distinct, IsSha256, CheckTransports, CheckCandidates, CheckClaims, CheckReview, CheckCoverage, CheckRatchet;
  }

  lemma {:induction false} LegacyPositive(buckets: seq<Bucket>)
    requires forall i :: 0 <= i < |buckets| ==> buckets[i].legacySourceBytes > 0
    ensures LegacyBytes(buckets) >= |buckets|
  {
    if buckets != [] {
      assert forall i :: 0 <= i < |buckets| - 1 ==> buckets[1..][i] == buckets[i + 1];
      LegacyPositive(buckets[1..]);
    }
  }

  function LaneIndex(lane: Lane): (i: nat)
    ensures i < |LANES| && LANES[i] == lane
  {
    match lane case Python => 0 case TypescriptFastify => 1 case GoHttp => 2 case GoPlatform => 3
  }

  lemma CompiledBucketAccepted(c: Component, lane: Lane, a: Accounting)
    requires CheckComponent(c, lane).None? && Full(a)
    ensures CheckBucket(Bucket(c.id, c.source.byteCount, a), c).None? <==> Nonnegative(a)
  {
    hide CheckComponent, Full, Nonnegative, ComponentId;
    AcceptedHasIdentity(c, lane);
  }

  /** Over accepted components, the compiled section is accepted exactly when no count is negative and every
      allocated sum is positive. */
  lemma CompiledIsAccepted(
    definitions: map<string, string>, components: map<Lane, Component>, accounting: map<Lane, Accounting>,
    policy: Accounting, lifecycle: Accounting)
    requires LanesAccepted(components) && Prepared(components, accounting) && Full(policy) && Full(lifecycle)
    ensures var buckets := Buckets(LANES, components, accounting);
            CheckOverhead(Compiled(definitions, buckets, policy, lifecycle), definitions, InLaneOrder(components)).None? <==>
            (forall lane: Lane :: Nonnegative(accounting[lane])) && Nonnegative(policy) && Nonnegative(lifecycle)
            && Positive(Allocated(buckets, policy, lifecycle))
  {
    hide CheckComponent, Nonnegative, Positive, CheckBucket, ComponentId;
    var buckets, cs := Buckets(LANES, components, accounting), InLaneOrder(components);
    forall i | 0 <= i < |LANES|
      ensures CheckBucket(buckets[i], cs[i]).None? <==> Nonnegative(accounting[LANES[i]])
      ensures buckets[i].legacySourceBytes > 0
    {
      CompiledBucketAccepted(components[LANES[i]], LANES[i], accounting[LANES[i]]);
      AcceptedHasIdentity(components[LANES[i]], LANES[i]);
    }
    BucketsAccepted(buckets, cs);
    LegacyPositive(buckets);
    if forall i :: 0 <= i < |LANES| ==> Nonnegative(accounting[LANES[i]]) {
      forall lane: Lane ensures Nonnegative(accounting[lane]) {
        assert Nonnegative(accounting[LANES[LaneIndex(lane)]]);
      }
    }
  }

  /** The accounting that a section's buckets carry, lane by lane. */
  function AccountingOf(buckets: seq<Bucket>): (r: map<Lane, Accounting>)
    requires |buckets| == |LANES|
    ensures forall lane: Lane :: lane in r && r[lane] == buckets[LaneIndex(lane)].counts
  {
    map lane: Lane | true :: buckets[LaneIndex(lane)].counts
  }

  lemma AccountingIsFull(buckets: seq<Bucket>, components: map<Lane, Component>)
    requires forall lane: Lane :: lane in components
    requires |buckets| == |LANES| && FullBuckets(buckets)
    ensures Prepared(components, AccountingOf(buckets))
  {
    hide Full;
    forall lane: Lane ensures Full(AccountingOf(buckets)[lane]) {
      assert Full(buckets[LaneIndex(lane)].counts);
    }
  }

  lemma LaneAt(i: nat)
    requires i < |LANES|
    ensures LaneIndex(LANES[i]) == i
  {
  }

  lemma BucketsRebuilt(buckets: seq<Bucket>, components: map<Lane, Component>)
    requires forall lane: Lane :: lane in components
    requires |buckets| == |LANES| && CheckBuckets(buckets, InLaneOrder(components)).None?
    ensures Prepared(components, AccountingOf(buckets))
    ensures buckets == Buckets(LANES, components, AccountingOf(buckets))
  {
    hide Full, Nonnegative, CheckBuckets, AccountingOf, LaneIndex;
    var cs := InLaneOrder(components);
    BucketsAccepted(buckets, cs);
    AccountingIsFull(buckets, components);
    var rebuilt := Buckets(LANES, components, AccountingOf(buckets));
    forall i | 0 <= i < |LANES| ensures buckets[i] == rebuilt[i] {
      LaneAt(i);
      assert CheckBucket(buckets[i], cs[i]).None?;
    }
  }

  /** Nothing else is accepted: an accepted section is what its own accounting compiles to. */
  lemma AcceptedIsCompiled(o: Overhead, definitions: map<string, string>, components: map<Lane, Component>)
    requires LanesAccepted(components)
    requires CheckOverhead(o, definitions, InLaneOrder(components)).None?
    ensures |o.components| == |LANES| && Full(o.sharedPolicy) && Full(o.changeLifecycle)
    ensures Prepared(components, AccountingOf(o.components))
    ensures o == Compiled(definitions, Buckets(LANES, components, AccountingOf(o.components)), o.sharedPolicy, o.changeLifecycle)
  {
    hide CheckComponent, Nonnegative, Positive, Full, CheckBuckets, Allocated, Buckets, LegacyBytes, AccountingOf;
    BucketsRebuilt(o.components, components);
  }
}
