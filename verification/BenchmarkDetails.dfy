/** What the shared definitions of the benchmark report come to, written out. */
module BenchmarkDetails {
  import opened Wrappers
  import opened BenchmarkComponents
  import R = BenchmarkRuntime

  // ---------- Runtime ----------

  /** Whatever ascending listing of the samples is taken: the median is its middle, or the mean of the middle two
      rounded down, and the extremes are its ends. */
  lemma MedianMeans(samples: seq<int>, t: seq<int>)
    requires samples != [] && R.AllPositive(samples)
    requires multiset(t) == multiset(samples) && forall i, j :: 0 <= i < j < |t| ==> t[i] <= t[j]
    ensures |t| == |samples| && R.Min(samples) == t[0] && R.Max(samples) == t[|t| - 1]
    ensures |t| % 2 == 1 ==> R.Median(samples) == t[|t| / 2]
    ensures |t| % 2 == 0 ==> 0 <= t[|t| / 2 - 1] + t[|t| / 2] - 2 * R.Median(samples) <= 1
  {
    hide R.Min, R.Max, R.Sort;
    assert |multiset(t)| == |t| && |multiset(samples)| == |samples|;
    R.SortKeeps(samples);
    R.AscendingUnique(R.Sort(samples), t);
    R.EndsOfSort(samples);
  }

  /** The expected matrix: four lanes by five phases. */
  lemma MatrixIs(id: R.Identity)
    ensures id in R.ExpectedPhases() <==>
            && (id.ecosystem == "go_http" || id.ecosystem == "go_platform" || id.ecosystem == "python"
                || id.ecosystem == "typescript_fastify")
            && (id.phase == "copy_source" || id.phase == "manifest_recheck" || id.phase == "native_post"
                || id.phase == "native_pre" || id.phase == "workflow")
  {
    R.BlocksMembers(R.RUNTIME_LANES, _ => R.PHASE_NAMES, id);
  }

  // ---------- Components ----------

  function LaneName(lane: Lane): string {
    match lane
    case Python => "python_legacy_quote"
    case TypescriptFastify => "typescript_fastify_legacy_quote"
    case GoHttp => "go_stdlib_legacy_quote"
    case GoPlatform => "go_stdlib_legacy_platforms"
  }

  function LaneTransports(lane: Lane): seq<string> {
    if lane == Python then [] else if lane == GoPlatform then ["cli", "event"] else ["http"]
  }

  predicate HexDigest(s: string) { |s| == 64 && forall c :: c in s ==> '0' <= c <= '9' || 'a' <= c <= 'f' }

  predicate FitsDebt(outcome: string, debt: int) {
    outcome == if debt == 0 then "pass" else "pass_with_legacy_coverage_debt"
  }

  /** Every accepted component names its lane and transports, has digests of 64 lower-case digits, and its outcomes
      fit its debt. */
  lemma AcceptedInWords(c: Component, lane: Lane)
    requires CheckComponent(c, lane).None?
    ensures c.id == LaneName(lane) && c.transports == LaneTransports(lane)
    ensures HexDigest(c.source.manifestDigest) && HexDigest(c.structuralDigest)
    ensures FitsDebt(c.ratchet.baselineOutcome, c.ratchet.coverageDebt)
         && FitsDebt(c.ratchet.unchangedOutcome, c.ratchet.coverageDebt)
    ensures c.ratchet.coverageDebt == c.coverage.unresolvedDebt == c.coverage.uncovered + c.dispositions.uncertain
  {
    hide Distinct, IsSha256;
    DigestsAre(c.source.manifestDigest);
    DigestsAre(c.structuralDigest);
  }

  lemma DigestsAre(s: string)
    ensures IsSha256(s) <==> HexDigest(s)
  {
    if IsSha256(s) {
      forall c | c in s ensures '0' <= c <= '9' || 'a' <= c <= 'f' {
        var i :| 0 <= i < |s| && s[i] == c;
      }
    }
    forall i | 0 <= i < |s| && HexDigest(s) ensures '0' <= s[i] <= '9' || 'a' <= s[i] <= 'f' { assert s[i] in s; }
  }

  // ---------- The complaint about one section that does not fit the rest ----------

  predicate Counted(k: Claims) {
    && k.observed >= 0 && k.declared >= 0 && k.mapped >= 0 && k.tested >= 0 && k.verified >= 0
    && k.freshEvidence >= 0 && k.staleEvidence >= 0
  }

  /** Claims of counts that are mapped, verified or stale, that do not match what was materialized, or that count no or
      other tests than fresh evidence, are a promotion. */
  lemma PromotionIff(m: Measured, lane: Lane, k: Claims)
    requires Sound(m) && Counted(k)
    ensures CheckComponent(Derive(m, lane).(claims := k), lane) ==
            (if && k.mapped == 0 && k.verified == 0 && k.staleEvidence == 0
                && k.observed == m.accepted + m.edited && k.declared == m.accepted + m.edited
                && k.tested == k.freshEvidence && k.tested >= 1
             then None else Some(ClaimPromotion))
  {
    hide Distinct, IsSha256, ComponentId, ExpectedTransports, Outcome;
    TransportsAreDistinct(lane);
    DigestIsText(m.source.manifestDigest);
    DigestIsText(m.structuralDigest);
  }

  /** Review actions other than one decision for each candidate, one resolution for each edit and no approval. */
  lemma ReviewIff(m: Measured, lane: Lane, a: ReviewActions)
    requires Sound(m) && a.candidateDecisions >= 0 && a.ambiguityResolutions >= 0 && a.mappingApprovals >= 0
    ensures CheckComponent(Derive(m, lane).(reviewActions := a), lane) ==
            (if && a.candidateDecisions == m.accepted + m.edited + m.rejected + m.uncertain
                && a.ambiguityResolutions == m.edited && a.mappingApprovals == 0
             then None else Some(ReviewEvidenceMismatch))
  {
    hide Distinct, IsSha256, ComponentId, ExpectedTransports, Outcome;
    TransportsAreDistinct(lane);
    DigestIsText(m.source.manifestDigest);
    DigestIsText(m.structuralDigest);
  }

  /** A ratchet of another debt or with an outcome that does not fit the debt. */
  lemma RatchetIff(m: Measured, lane: Lane, r: Ratchet)
    requires Sound(m) && r.coverageDebt >= 0
    ensures CheckComponent(Derive(m, lane).(ratchet := r), lane) ==
            (if r.coverageDebt == m.uncovered + m.uncertain && FitsDebt(r.baselineOutcome, r.coverageDebt)
                && FitsDebt(r.unchangedOutcome, r.coverageDebt)
             then None else Some(SummaryMismatch))
  {
    hide Distinct, IsSha256, ComponentId, ExpectedTransports;
    TransportsAreDistinct(lane);
    DigestIsText(m.source.manifestDigest);
    DigestIsText(m.structuralDigest);
  }

  /** Transports in another order, of another lane, or repeated. */
  lemma TransportsIff(m: Measured, lane: Lane, transports: seq<string>)
    requires Sound(m) && Distinct(transports)
    requires forall t :: t in transports ==> t == "http" || t == "cli" || t == "event"
    ensures CheckComponent(Derive(m, lane).(transports := transports), lane) ==
            (if transports == LaneTransports(lane) then None else Some(TransportEvidenceMismatch))
  {
    hide Distinct, IsSha256, ComponentId, Outcome;
    DigestIsText(m.source.manifestDigest);
    DigestIsText(m.structuralDigest);
  }
}
