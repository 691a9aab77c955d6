/** Components of a benchmark report and the totals over them: `_validate_component`, `_validate_totals` and
    `_component_totals` in tools/rel001_benchmark.py. */
module BenchmarkComponents {
  import opened Wrappers

  datatype Lane = Python | TypescriptFastify | GoHttp | GoPlatform

  /** `_LANE_COMPONENTS`, in its order. */
  const LANES: seq<Lane> := [Python, TypescriptFastify, GoHttp, GoPlatform]

  function ComponentId(lane: Lane): string {
    match lane
    case Python => "python_legacy_quote"
    case TypescriptFastify => "typescript_fastify_legacy_quote"
    case GoHttp => "go_stdlib_legacy_quote"
    case GoPlatform => "go_stdlib_legacy_platforms"
  }

  function ExpectedTransports(lane: Lane): seq<string> {
    match lane
    case Python => []
    case TypescriptFastify => ["http"]
    case GoHttp => ["http"]
    case GoPlatform => ["cli", "event"]
  }

  datatype Source = Source(fileCount: int, byteCount: int, manifestDigest: string)
  datatype Dispositions = Dispositions(accepted: int, edited: int, rejected: int, uncertain: int)
  datatype ReviewActions = ReviewActions(candidateDecisions: int, ambiguityResolutions: int, mappingApprovals: int)
  datatype Coverage = Coverage(eligible: int, uncovered: int, unresolvedDebt: int)
  datatype Claims = Claims(observed: int, declared: int, mapped: int, tested: int, verified: int, freshEvidence: int, staleEvidence: int)
  datatype Ratchet = Ratchet(baselineOutcome: string, unchangedOutcome: string, coverageDebt: int)

  datatype Component = Component(
    id: string, source: Source, inventoryRecords: int, candidates: int, falseCandidates: int,
    dispositions: Dispositions, coverage: Coverage, materializations: int, mappingBindings: int,
    reviewActions: ReviewActions, claims: Claims, ratchet: Ratchet, transports: seq<string>, structuralDigest: string)

  datatype Code =
    | InvalidType | InvalidDigest | MissingField | SummaryMismatch | ReviewEvidenceMismatch | ClaimPromotion
    | TransportEvidenceMismatch

  predicate IsSha256(s: string) {
    |s| == 64 && forall i :: 0 <= i < |s| ==> '0' <= s[i] <= '9' || 'a' <= s[i] <= 'f'
  }

  predicate Distinct(s: seq<string>) { forall i, j :: 0 <= i < j < |s| ==> s[i] != s[j] }

  // ---------- The checks, in the code's order ----------

  function CheckSource(s: Source): Option<Code> {
    if s.fileCount <= 0 || s.byteCount <= 0 then Some(InvalidType)
    else if s.manifestDigest == "" then Some(InvalidType)
    else if !IsSha256(s.manifestDigest) then Some(InvalidDigest)
    else None
  }

  function CheckCandidates(c: Component): Option<Code> {
    var d := c.dispositions;
    if c.inventoryRecords < 0 || c.candidates < 0 || c.falseCandidates < 0 || c.materializations < 0 || c.mappingBindings < 0
    then Some(InvalidType)
    else if d.accepted < 0 || d.edited < 0 || d.rejected < 0 || d.uncertain < 0 then Some(InvalidType)
    else if c.candidates != d.accepted + d.edited + d.rejected + d.uncertain then Some(SummaryMismatch)
    else if c.falseCandidates != d.edited + d.rejected then Some(SummaryMismatch)
    else if c.materializations != d.accepted + d.edited then Some(SummaryMismatch)
    else None
  }

  function CheckReview(c: Component): Option<Code> {
    var r := c.reviewActions;
    if r.candidateDecisions < 0 || r.ambiguityResolutions < 0 || r.mappingApprovals < 0 then Some(InvalidType)
    else if r != ReviewActions(c.candidates, c.dispositions.edited, 0) then Some(ReviewEvidenceMismatch)
    else None
  }

  function CheckCoverage(c: Component): Option<Code> {
    var v := c.coverage;
    if v.eligible < 0 || v.uncovered < 0 || v.unresolvedDebt < 0 then Some(InvalidType)
    else if v.uncovered > v.eligible then Some(SummaryMismatch)
    else if v.unresolvedDebt != v.uncovered + c.dispositions.uncertain then Some(SummaryMismatch)
    else None
  }

  function CheckClaims(c: Component): Option<Code> {
    var k := c.claims;
    if k.observed < 0 || k.declared < 0 || k.mapped < 0 || k.tested < 0 || k.verified < 0 || k.freshEvidence < 0 || k.staleEvidence < 0
    then Some(InvalidType)
    else if k.verified != 0 || k.mapped != 0 || k.observed != c.materializations || k.declared != c.materializations
            || k.tested != k.freshEvidence || k.staleEvidence != 0 || k.tested < 1 || c.mappingBindings < 1
    then Some(ClaimPromotion)
    else None
  }

  function Outcome(debt: int): string { if debt != 0 then "pass_with_legacy_coverage_debt" else "pass" }

  function CheckRatchet(c: Component): Option<Code> {
    var r := c.ratchet;
    if r.coverageDebt < 0 then Some(InvalidType)
    else if r.coverageDebt != c.coverage.uncovered + c.dispositions.uncertain
            || r.baselineOutcome != Outcome(r.coverageDebt) || r.unchangedOutcome != Outcome(r.coverageDebt)
    then Some(SummaryMismatch)
    else None
  }

  function CheckTransports(c: Component, lane: Lane): Option<Code> {
    if !Distinct(c.transports) || exists t :: t in c.transports && t != "http" && t != "cli" && t != "event"
    then Some(SummaryMismatch)
    else if c.transports != ExpectedTransports(lane) then Some(TransportEvidenceMismatch)
    else if c.structuralDigest == "" then Some(InvalidType)
    else if !IsSha256(c.structuralDigest) then Some(InvalidDigest)
    else None
  }

  function First(a: Option<Code>, b: Option<Code>): Option<Code> { if a.Some? then a else b }

  /** `_validate_component`: the first complaint, if any. */
  function CheckComponent(c: Component, lane: Lane): Option<Code> {
    if c.id != ComponentId(lane) then Some(SummaryMismatch)
    else First(CheckSource(c.source), First(CheckCandidates(c), First(CheckReview(c), First(CheckCoverage(c),
         First(CheckClaims(c), First(CheckRatchet(c), CheckTransports(c, lane)))))))
  }

  // ---------- What a component may choose ----------

  /** The free measurements of a component; every other field follows from them. */
  datatype Measured = Measured(
    source: Source, inventoryRecords: nat, accepted: nat, edited: nat, rejected: nat, uncertain: nat,
    eligible: nat, uncovered: nat, mappingBindings: nat, tested: nat, structuralDigest: string)

  predicate Sound(m: Measured) {
    && m.source.fileCount > 0 && m.source.byteCount > 0 && IsSha256(m.source.manifestDigest)
    && m.uncovered <= m.eligible && m.mappingBindings > 0 && m.tested > 0 && IsSha256(m.structuralDigest)
  }

  function Derive(m: Measured, lane: Lane): Component {
    var made := m.accepted + m.edited;
    var total := m.accepted + m.edited + m.rejected + m.uncertain;
    var debt := m.uncovered + m.uncertain;
    Component(
      ComponentId(lane), m.source, m.inventoryRecords, total, m.edited + m.rejected,
      Dispositions(m.accepted, m.edited, m.rejected, m.uncertain), Coverage(m.eligible, m.uncovered, debt), made,
      m.mappingBindings, ReviewActions(total, m.edited, 0), Claims(made, made, 0, m.tested, 0, m.tested, 0),
      Ratchet(Outcome(debt), Outcome(debt), debt), ExpectedTransports(lane), m.structuralDigest)
  }

  lemma TransportsAreDistinct(lane: Lane)
    ensures Distinct(ExpectedTransports(lane))
    ensures forall t :: t in ExpectedTransports(lane) ==> t == "http" || t == "cli" || t == "event"
  {
  }

  /** Exactly the components derived from sound measurements are accepted. */
  lemma AcceptedIsDerived(c: Component, lane: Lane)
    ensures CheckComponent(c, lane).None? <==> exists m: Measured :: Sound(m) && c == Derive(m, lane)
  {
    hide Distinct, IsSha256, ComponentId, ExpectedTransports, Outcome;
    TransportsAreDistinct(lane);
    DigestIsText(c.source.manifestDigest);
    DigestIsText(c.structuralDigest);
    if CheckComponent(c, lane).None? {
      var d := c.dispositions;
      var m := Measured(c.source, c.inventoryRecords, d.accepted, d.edited, d.rejected, d.uncertain,
                        c.coverage.eligible, c.coverage.uncovered, c.mappingBindings, c.claims.tested, c.structuralDigest);
      assert Sound(m) && c == Derive(m, lane);
    }
  }

  lemma DigestIsText(s: string)
    ensures IsSha256(s) ==> s != ""
  {
  }

  // ---------- Totals ----------

  datatype Measure =
    | SourceFiles | SourceBytes | InventoryRecords | Candidates | FalseCandidates | CandidateDecisions
    | AmbiguityResolutions | MappingApprovals | ChangeApprovals | EligibleInterfaces | UncoveredInterfaces
    | UnresolvedDebt | Materializations | MappingBindings | TestedClaims | VerifiedClaims | FreshEvidence | StaleEvidence

  function Count(c: Component, k: Measure): int {
    match k
    case SourceFiles => c.source.fileCount
    case SourceBytes => c.source.byteCount
    case InventoryRecords => c.inventoryRecords
    case Candidates => c.candidates
    case FalseCandidates => c.falseCandidates
    case CandidateDecisions => c.reviewActions.candidateDecisions
    case AmbiguityResolutions => c.reviewActions.ambiguityResolutions
    case MappingApprovals => c.reviewActions.mappingApprovals
    case ChangeApprovals => 0
    case EligibleInterfaces => c.coverage.eligible
    case UncoveredInterfaces => c.coverage.uncovered
    case UnresolvedDebt => c.coverage.unresolvedDebt
    case Materializations => c.materializations
    case MappingBindings => c.mappingBindings
    case TestedClaims => c.claims.tested
    case VerifiedClaims => c.claims.verified
    case FreshEvidence => c.claims.freshEvidence
    case StaleEvidence => c.claims.staleEvidence
  }

  function Sum(components: seq<Component>, k: Measure): int {
    if components == [] then 0 else Count(components[0], k) + Sum(components[1..], k)
  }

  /** `sum(item... for item in components)`. */
  function SumOf(components: seq<Component>, field: Component -> int): int {
    if components == [] then 0 else field(components[0]) + SumOf(components[1..], field)
  }

  /** The compiler's entries, one by one. */
  function TotalOf(components: seq<Component>, k: Measure): int {
    match k
    case SourceFiles => SumOf(components, (c: Component) => c.source.fileCount)
    case SourceBytes => SumOf(components, (c: Component) => c.source.byteCount)
    case InventoryRecords => SumOf(components, (c: Component) => c.inventoryRecords)
    case Candidates => SumOf(components, (c: Component) => c.candidates)
    case FalseCandidates => SumOf(components, (c: Component) => c.falseCandidates)
    case CandidateDecisions => SumOf(components, (c: Component) => c.reviewActions.candidateDecisions)
    case AmbiguityResolutions => SumOf(components, (c: Component) => c.reviewActions.ambiguityResolutions)
    case MappingApprovals => SumOf(components, (c: Component) => c.reviewActions.mappingApprovals)
    case ChangeApprovals => 0
    case EligibleInterfaces => SumOf(components, (c: Component) => c.coverage.eligible)
    case UncoveredInterfaces => SumOf(components, (c: Component) => c.coverage.uncovered)
    case UnresolvedDebt => SumOf(components, (c: Component) => c.coverage.unresolvedDebt)
    case Materializations => SumOf(components, (c: Component) => c.materializations)
    case MappingBindings => SumOf(components, (c: Component) => c.mappingBindings)
    case TestedClaims => SumOf(components, (c: Component) => c.claims.tested)
    case VerifiedClaims => SumOf(components, (c: Component) => c.claims.verified)
    case FreshEvidence => SumOf(components, (c: Component) => c.claims.freshEvidence)
    case StaleEvidence => SumOf(components, (c: Component) => c.claims.staleEvidence)
  }

  /** `_component_totals`: the compiler's dictionary. */
  function ComponentTotals(components: seq<Component>): map<Measure, int> {
    map k: Measure | true :: TotalOf(components, k)
  }

  lemma {:induction false} SumOfCount(components: seq<Component>, field: Component -> int, k: Measure)
    requires forall c :: field(c) == Count(c, k)
    ensures SumOf(components, field) == Sum(components, k)
  {
    if components != [] { SumOfCount(components[1..], field, k); }
  }

  /** The compiler's entries are the validator's. */
  lemma CompiledSum(components: seq<Component>, k: Measure)
    ensures ComponentTotals(components)[k] == Sum(components, k)
  {
    hide Sum, SumOf;
    match k
    case SourceFiles => SumOfCount(components, (c: Component) => c.source.fileCount, k);
    case SourceBytes => SumOfCount(components, (c: Component) => c.source.byteCount, k);
    case InventoryRecords => SumOfCount(components, (c: Component) => c.inventoryRecords, k);
    case Candidates => SumOfCount(components, (c: Component) => c.candidates, k);
    case FalseCandidates => SumOfCount(components, (c: Component) => c.falseCandidates, k);
    case CandidateDecisions => SumOfCount(components, (c: Component) => c.reviewActions.candidateDecisions, k);
    case AmbiguityResolutions => SumOfCount(components, (c: Component) => c.reviewActions.ambiguityResolutions, k);
    case MappingApprovals => SumOfCount(components, (c: Component) => c.reviewActions.mappingApprovals, k);
    case ChangeApprovals => NoChangeApprovals(components);
    case EligibleInterfaces => SumOfCount(components, (c: Component) => c.coverage.eligible, k);
    case UncoveredInterfaces => SumOfCount(components, (c: Component) => c.coverage.uncovered, k);
    case UnresolvedDebt => SumOfCount(components, (c: Component) => c.coverage.unresolvedDebt, k);
    case Materializations => SumOfCount(components, (c: Component) => c.materializations, k);
    case MappingBindings => SumOfCount(components, (c: Component) => c.mappingBindings, k);
    case TestedClaims => SumOfCount(components, (c: Component) => c.claims.tested, k);
    case VerifiedClaims => SumOfCount(components, (c: Component) => c.claims.verified, k);
    case FreshEvidence => SumOfCount(components, (c: Component) => c.claims.freshEvidence, k);
    case StaleEvidence => SumOfCount(components, (c: Component) => c.claims.staleEvidence, k);
  }

  /** The expectation of `_validate_totals`. */
  function ExpectedTotals(components: seq<Component>): map<Measure, int> {
    map k: Measure | true :: Sum(components, k)
  }

  function CheckTotals(totals: map<Measure, int>, components: seq<Component>): Option<Code> {
    if exists k: Measure :: k !in totals then Some(MissingField)
    else if exists k :: k in totals && totals[k] < 0 then Some(InvalidType)
    else if totals != ExpectedTotals(components) then Some(SummaryMismatch)
    else None
  }

  predicate Accepted(c: Component) { exists lane: Lane :: CheckComponent(c, lane).None? }

  /** Every component was accepted in some lane. */
  predicate AllAccepted(components: seq<Component>) {
    forall i :: 0 <= i < |components| ==> Accepted(components[i])
  }

  lemma {:induction false} SumsNonnegative(components: seq<Component>, k: Measure)
    requires AllAccepted(components)
    ensures Sum(components, k) >= 0
  {
    hide CheckComponent, Count;
    if components != [] {
      assert forall i :: 0 <= i < |components[1..]| ==> components[1..][i] == components[i + 1];
      SumsNonnegative(components[1..], k);
      assert Accepted(components[0]);
      var lane: Lane :| CheckComponent(components[0], lane).None?;
      CountNonnegative(components[0], lane, k);
    }
  }

  lemma CountNonnegative(c: Component, lane: Lane, k: Measure)
    requires CheckComponent(c, lane).None?
    ensures Count(c, k) >= 0
  {
    hide Distinct, IsSha256, ComponentId, ExpectedTransports, Outcome, CheckTransports;
  }

  lemma AllMeasured(components: seq<Component>, k: Measure)
    ensures k in ComponentTotals(components)
  {
  }

  /** Over accepted components, exactly the compiled totals are accepted. */
  lemma TotalsAccepted(totals: map<Measure, int>, components: seq<Component>)
    requires AllAccepted(components)
    ensures CheckTotals(totals, components).None? <==> totals == ComponentTotals(components)
  {
    hide CheckComponent, AllAccepted, ComponentTotals;
    forall k: Measure ensures Sum(components, k) >= 0 { SumsNonnegative(components, k); }
    forall k: Measure ensures k in ComponentTotals(components) && ComponentTotals(components)[k] == Sum(components, k) {
      AllMeasured(components, k);
      CompiledSum(components, k);
    }
    assert ComponentTotals(components) == ExpectedTotals(components);
  }

  lemma ComponentBalance(c: Component, lane: Lane)
    requires CheckComponent(c, lane).None?
    ensures Count(c, Candidates) + Count(c, AmbiguityResolutions) + Count(c, UncoveredInterfaces)
         == Count(c, FalseCandidates) + Count(c, Materializations) + Count(c, UnresolvedDebt)
    ensures Count(c, CandidateDecisions) == Count(c, Candidates)
    ensures Count(c, TestedClaims) == Count(c, FreshEvidence) >= 1
    ensures Count(c, MappingApprovals) == Count(c, VerifiedClaims) == Count(c, StaleEvidence) == 0
    ensures Count(c, UncoveredInterfaces) <= Count(c, EligibleInterfaces)
  {
    hide Distinct, IsSha256, ComponentId, ExpectedTransports, Outcome, CheckTransports;
  }

  /** The balance holds of the totals: nothing proposed, reviewed or uncovered is lost on the way to the sums. */
  lemma {:induction false} TotalsBalance(components: seq<Component>)
    requires AllAccepted(components)
    ensures Sum(components, Candidates) + Sum(components, AmbiguityResolutions) + Sum(components, UncoveredInterfaces)
         == Sum(components, FalseCandidates) + Sum(components, Materializations) + Sum(components, UnresolvedDebt)
    ensures Sum(components, CandidateDecisions) == Sum(components, Candidates)
    ensures Sum(components, TestedClaims) == Sum(components, FreshEvidence) >= |components|
    ensures Sum(components, MappingApprovals) == Sum(components, VerifiedClaims) == Sum(components, StaleEvidence) == 0
    ensures Sum(components, UncoveredInterfaces) <= Sum(components, EligibleInterfaces)
  {
    hide CheckComponent, Count;
    if components != [] {
      assert forall i :: 0 <= i < |components[1..]| ==> components[1..][i] == components[i + 1];
      TotalsBalance(components[1..]);
      assert Accepted(components[0]);
      var lane: Lane :| CheckComponent(components[0], lane).None?;
      ComponentBalance(components[0], lane);
    }
  }

  /** Accepted totals obey the balance. */
  lemma AcceptedTotalsBalance(totals: map<Measure, int>, components: seq<Component>)
    requires AllAccepted(components) && CheckTotals(totals, components).None?
    ensures totals[Candidates] + totals[AmbiguityResolutions] + totals[UncoveredInterfaces]
         == totals[FalseCandidates] + totals[Materializations] + totals[UnresolvedDebt]
    ensures totals[CandidateDecisions] == totals[Candidates] && totals[TestedClaims] == totals[FreshEvidence]
    ensures totals[MappingApprovals] == totals[VerifiedClaims] == totals[StaleEvidence] == totals[ChangeApprovals] == 0
  {
    hide CheckComponent, AllAccepted, Count, ComponentTotals;
    TotalsBalance(components);
    NoChangeApprovals(components);
  }

  lemma {:induction false} NoChangeApprovals(components: seq<Component>)
    ensures Sum(components, ChangeApprovals) == 0
  {
    if components != [] { NoChangeApprovals(components[1..]); }
  }
}
