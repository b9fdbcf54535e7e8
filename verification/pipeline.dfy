/**
 `run_comprehensive_test` (comprehensive_link_checker.py:428-462) over the two sources:
 probe and analyse each source that produced a non-empty page, then compare, summarise,
 and choose the broken-link details and the quality band.
 */
module Comprehensive {
  import opened Wrappers
  import opened LinkExtraction
  import opened JavaScript
  import opened Probing
  import opened Report

  const LiveSource := "live website"
  const LocalSource := "local file"

  datatype Run = Run(
    checks: seq<LinkCheck>,
    liveScripts: Option<JsAnalysis>,
    localScripts: Option<JsAnalysis>,
    comparison: Option<Comparison>,
    summary: Summary,
    details: seq<BrokenDetail>,
    quality: Quality)

  /** A source is probed and analysed only when it is accessible and its page text is non-empty. */
  predicate Probed(s: SourceReport)
  {
    s.Accessible? && s.content != []
  }

  /** The external links a source hands to the prober: none unless it is probed. */
  function ExternalOf(s: SourceReport): (r: seq<string>)
    ensures Probed(s) ==> r == ExtractLinks(s.content).external
    ensures !Probed(s) ==> r == []
  {
    if Probed(s) then ExtractLinks(s.content).external else []
  }

  /**
   The record of one probed batch: the number of links, and the first `min(n, 10)` links,
   each with the outcome of `test_url`.
   */
  predicate ProbedBatch(c: LinkCheck, links: seq<string>, probe: Prober)
  {
    && c.total == |links|
    && c.tested == Min(|links|, ProbeCap) == |c.results|
    && forall i | 0 <= i < c.tested :: i < |links| && c.results[i] == ProbeRecord(links[i], TestUrl(probe(i, links[i])))
  }

  /** The entries of `link_checks`: the live website first, then the local file; none for a source without links. */
  method ProbeSources(liveLinks: seq<string>, localLinks: seq<string>, probeLive: Prober, probeLocal: Prober)
    returns (checks: seq<LinkCheck>)
    ensures AllWellFormed(checks)
    ensures |checks| == (if liveLinks != [] then 1 else 0) + (if localLinks != [] then 1 else 0)
    ensures liveLinks != [] ==>
      && checks[0].source == LiveSource
      && ProbedBatch(checks[0], liveLinks, probeLive)
    ensures localLinks != [] ==>
      && checks[|checks| - 1].source == LocalSource
      && ProbedBatch(checks[|checks| - 1], localLinks, probeLocal)
    ensures TestedSum(checks) == Min(|liveLinks|, ProbeCap) + Min(|localLinks|, ProbeCap)
  {
    var liveCheck := ProbeBatch(liveLinks, LiveSource, probeLive);
    var localCheck := ProbeBatch(localLinks, LocalSource, probeLocal);
    if liveCheck.Some? && localCheck.Some? {
      checks := [liveCheck.value, localCheck.value];
      assert TestedSum(checks[1..]) == localCheck.value.tested + TestedSum([]);
    } else if liveCheck.Some? {
      checks := [liveCheck.value];
      assert TestedSum(checks) == liveCheck.value.tested + TestedSum([]);
    } else if localCheck.Some? {
      checks := [localCheck.value];
      assert TestedSum(checks) == localCheck.value.tested + TestedSum([]);
    } else {
      checks := [];
    }
  }

  /** The script analysis of a source, run only when it is probed. */
  function ScriptsOf(s: SourceReport): (r: Option<JsAnalysis>)
    ensures r.Some? <==> Probed(s)
  {
    if Probed(s) then Some(AnalyzeJavaScript(s.content)) else None
  }

  datatype Conclusion = Conclusion(summary: Summary, details: seq<BrokenDetail>, quality: Quality)

  /** The statistics, the broken-link details and the band of the readable summary. */
  function Conclude(live: SourceReport, local: SourceReport, checks: seq<LinkCheck>): (r: Conclusion)
    requires AllWellFormed(checks) && |checks| <= 2
    ensures r.summary.tested <= 2 * ProbeCap
    ensures r.summary.working <= r.summary.tested && r.summary.broken >= 0
    ensures 0.0 <= r.summary.successRate <= 100.0
    ensures r.details != [] <==> r.summary.broken > 0
    ensures r.quality == CountBand(r.summary.working, r.summary.tested)
    ensures r.summary == Summarize(live, local, checks) && r.details == BrokenDetails(r.summary, checks)
  {
    var summary := Summarize(live, local, checks);
    TestedAtMostCap(checks);
    BrokenDetailsIff(live, local, checks);
    BandByCounts(summary.working, summary.tested);
    Conclusion(summary, BrokenDetails(summary, checks), Band(summary.successRate))
  }

  /**
   The whole run: the checks probe the first ten external links of each probed source,
   the summary counts those outcomes, and the comparison, the details and the band
   follow from them.
   */
  method RunComprehensive(live: SourceReport, local: SourceReport, probeLive: Prober, probeLocal: Prober)
    returns (r: Run)
    ensures AllWellFormed(r.checks)
    ensures |r.checks| == (if ExternalOf(live) != [] then 1 else 0) + (if ExternalOf(local) != [] then 1 else 0)
    ensures ExternalOf(live) != [] ==>
      r.checks[0].source == LiveSource && ProbedBatch(r.checks[0], ExternalOf(live), probeLive)
    ensures ExternalOf(local) != [] ==>
      && r.checks[|r.checks| - 1].source == LocalSource
      && ProbedBatch(r.checks[|r.checks| - 1], ExternalOf(local), probeLocal)
    ensures r.liveScripts == ScriptsOf(live) && r.localScripts == ScriptsOf(local)
    ensures r.comparison == CompareVersions(live, local)
    ensures r.summary == Summarize(live, local, r.checks)
    ensures r.summary.tested == Min(|ExternalOf(live)|, ProbeCap) + Min(|ExternalOf(local)|, ProbeCap)
    ensures r.summary.working <= r.summary.tested && r.summary.broken >= 0
    ensures r.details == BrokenDetails(r.summary, r.checks)
    ensures r.details != [] <==> r.summary.broken > 0
    ensures r.quality == CountBand(r.summary.working, r.summary.tested)
  {
    var checks := ProbeSources(ExternalOf(live), ExternalOf(local), probeLive, probeLocal);
    var c := Conclude(live, local, checks);
    r := Run(checks, ScriptsOf(live), ScriptsOf(local), CompareVersions(live, local), c.summary, c.details, c.quality);
  }

  /** Every well-formed check tests at most `ProbeCap` links. */
  lemma {:induction false} TestedAtMostCap(checks: seq<LinkCheck>)
    requires AllWellFormed(checks)
    ensures TestedSum(checks) <= |checks| * ProbeCap
  {
    if checks != [] {
      assert AllWellFormed(checks[1..]) by {
        assert forall i | 0 <= i < |checks[1..]| :: checks[1..][i] == checks[i + 1];
      }
      TestedAtMostCap(checks[1..]);
      assert WellFormedCheck(checks[0]);
    }
  }
}
