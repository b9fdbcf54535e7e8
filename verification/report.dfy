/**
 The arithmetic of the comprehensive report: the comparison of the two sources
 (comprehensive_link_checker.py:275-300), the statistics of the summary (302-324), and the
 broken-link details and quality band of the readable summary (386-421).
 */
module Report {
  import opened Wrappers
  import opened LinkExtraction
  import opened Probing

  /** `live_website` / `local_file`: either the page text was obtained or it was not. */
  datatype SourceReport =
    | NotAccessible(error: string)
    | Accessible(content: string)
  {
    /** `total_links` of an accessible source. */
    function TotalLinks(): nat
      requires Accessible?
    {
      ExtractLinks(content).TotalLinks()
    }
  }

  datatype Comparison = Comparison(liveLinks: nat, localLinks: nat, difference: int)

  /** `compare_versions`: recorded only when both sources are accessible. */
  function CompareVersions(live: SourceReport, local: SourceReport): (r: Option<Comparison>)
    ensures r.Some? <==> live.Accessible? && local.Accessible?
    ensures r.Some? ==> r.value.liveLinks == live.TotalLinks() && r.value.localLinks == local.TotalLinks()
    ensures r.Some? ==> r.value.localLinks + r.value.difference == r.value.liveLinks
  {
    if live.Accessible? && local.Accessible? then
      var a := live.TotalLinks();
      var b := local.TotalLinks();
      Some(Comparison(a, b, a - b))
    else None
  }

  /** Swapping the sources negates the difference; it is zero exactly when the totals agree. */
  lemma CompareAntisymmetric(a: SourceReport, b: SourceReport)
    requires a.Accessible? && b.Accessible?
    ensures CompareVersions(b, a).value.difference == -CompareVersions(a, b).value.difference
    ensures CompareVersions(a, b).value.difference == 0 <==> a.TotalLinks() == b.TotalLinks()
  {
  }

  /** The number of accessible results. */
  function CountWorking(rs: seq<ProbeRecord>): (n: nat)
    ensures n <= |rs|
  {
    if rs == [] then 0
    else (if rs[0].result.Accessible() then 1 else 0) + CountWorking(rs[1..])
  }

  /** The inaccessible results, in probe order. */
  function BrokenOf(rs: seq<ProbeRecord>): (r: seq<ProbeRecord>)
    ensures |r| + CountWorking(rs) == |rs|
    ensures forall i | 0 <= i < |r| :: !r[i].result.Accessible()
    ensures forall x :: x in r <==> x in rs && !x.result.Accessible()
  {
    if rs == [] then []
    else if rs[0].result.Accessible() then BrokenOf(rs[1..])
    else [rs[0]] + BrokenOf(rs[1..])
  }

  /** The filter keeps probe order. */
  lemma {:induction false} BrokenOfAppend(a: seq<ProbeRecord>, b: seq<ProbeRecord>)
    ensures BrokenOf(a + b) == BrokenOf(a) + BrokenOf(b)
  {
    if a != [] {
      assert (a + b)[1..] == a[1..] + b;
      BrokenOfAppend(a[1..], b);
    } else {
      assert a + b == b;
    }
  }

  /** `total_external_links_tested`. */
  function TestedSum(checks: seq<LinkCheck>): nat
  {
    if checks == [] then 0 else checks[0].tested + TestedSum(checks[1..])
  }

  /** `working_external_links`. */
  function WorkingSum(checks: seq<LinkCheck>): nat
  {
    if checks == [] then 0 else CountWorking(checks[0].results) + WorkingSum(checks[1..])
  }

  /** The number of inaccessible results over all checks. */
  function BrokenSum(checks: seq<LinkCheck>): nat
  {
    if checks == [] then 0 else |BrokenOf(checks[0].results)| + BrokenSum(checks[1..])
  }

  predicate AllWellFormed(checks: seq<LinkCheck>)
  {
    forall i | 0 <= i < |checks| :: WellFormedCheck(checks[i])
  }

  /** With well-formed checks, tested minus working counts exactly the inaccessible results. */
  lemma {:induction false} TestedSplits(checks: seq<LinkCheck>)
    ensures AllWellFormed(checks) ==> WorkingSum(checks) + BrokenSum(checks) == TestedSum(checks)
  {
    if checks != [] && AllWellFormed(checks) {
      assert AllWellFormed(checks[1..]) by {
        assert forall i | 0 <= i < |checks[1..]| :: checks[1..][i] == checks[i + 1];
      }
      TestedSplits(checks[1..]);
      assert WellFormedCheck(checks[0]);
    }
  }

  /** Some result is broken exactly when some check has a non-empty broken list. */
  lemma {:induction false} BrokenSumPositive(checks: seq<LinkCheck>)
    ensures BrokenSum(checks) > 0 <==> exists i | 0 <= i < |checks| :: BrokenOf(checks[i].results) != []
  {
    if checks != [] {
      BrokenSumPositive(checks[1..]);
      assert forall i | 1 <= i < |checks| :: checks[1..][i - 1] == checks[i];
    }
  }

  /** `working_links / total_external_tested * 100`, or 0 when nothing was tested. */
  function SuccessRate(working: nat, tested: nat): (r: real)
    ensures tested == 0 ==> r == 0.0
    ensures tested > 0 ==> r * tested as real == 100.0 * working as real
    ensures working <= tested ==> 0.0 <= r <= 100.0
  {
    if tested > 0 then (working as real / tested as real) * 100.0 else 0.0
  }

  /** The `summary` dictionary. */
  datatype Summary = Summary(
    liveAccessible: bool,
    localAccessible: bool,
    tested: nat,
    working: nat,
    broken: int,
    successRate: real)

  function Summarize(live: SourceReport, local: SourceReport, checks: seq<LinkCheck>): (s: Summary)
    ensures s.liveAccessible <==> live.Accessible?
    ensures s.localAccessible <==> local.Accessible?
    ensures s.tested == TestedSum(checks) && s.working == WorkingSum(checks)
    ensures AllWellFormed(checks) ==>
      && s.working <= s.tested
      && s.broken == BrokenSum(checks) >= 0
      && 0.0 <= s.successRate <= 100.0
    ensures s.tested == 0 ==> s.successRate == 0.0
  {
    var tested := TestedSum(checks);
    var working := WorkingSum(checks);
    TestedSplits(checks);
    Summary(live.Accessible?, local.Accessible?, tested, working, tested - working, SuccessRate(working, tested))
  }

  datatype Quality = Excellent | Good | PoorQuality | VeryPoor

  /** The overall assessment of the readable summary. */
  function Band(rate: real): Quality
  {
    if rate >= 90.0 then Excellent
    else if rate >= 75.0 then Good
    else if rate >= 50.0 then PoorQuality
    else VeryPoor
  }

  /** The same bands by integer cross-multiplication, with nothing tested counted as very poor. */
  function CountBand(working: nat, tested: nat): Quality
  {
    if tested == 0 then VeryPoor
    else if 10 * working >= 9 * tested then Excellent
    else if 4 * working >= 3 * tested then Good
    else if 2 * working >= tested then PoorQuality
    else VeryPoor
  }

  /** `rate >= b` exactly when `100 * working >= b * tested`, for a positive number tested. */
  lemma RateAtLeast(working: nat, tested: nat, b: real)
    requires tested > 0
    ensures SuccessRate(working, tested) >= b <==> 100.0 * working as real >= b * tested as real
  {
    var r := SuccessRate(working, tested);
    var t := tested as real;
    assert r * t == 100.0 * working as real;
    if r >= b {
      assert r * t >= b * t;
    } else {
      assert r * t < b * t;
    }
  }

  /** The band of the real-valued rate is the band by counts. */
  lemma BandByCounts(working: nat, tested: nat)
    ensures Band(SuccessRate(working, tested)) == CountBand(working, tested)
  {
    if tested > 0 {
      RateAtLeast(working, tested, 90.0);
      RateAtLeast(working, tested, 75.0);
      RateAtLeast(working, tested, 50.0);
    }
  }

  /** At most this many broken links are listed per source. */
  const ShownPerSource: nat := 3

  datatype BrokenDetail = BrokenDetail(source: string, shown: seq<ProbeRecord>)

  /** The block of one check: its first broken results, if it has any. */
  function DetailOf(c: LinkCheck): (r: Option<BrokenDetail>)
    ensures r.None? <==> BrokenOf(c.results) == []
    ensures r.Some? ==>
      && r.value.source == c.source
      && |r.value.shown| == Min(|BrokenOf(c.results)|, ShownPerSource)
      && forall i | 0 <= i < |r.value.shown| :: r.value.shown[i] == BrokenOf(c.results)[i]
  {
    var b := BrokenOf(c.results);
    if b == [] then None else Some(BrokenDetail(c.source, b[..Min(|b|, ShownPerSource)]))
  }

  /** The blocks of all checks that have broken results, in the order of the checks. */
  function DetailsOf(checks: seq<LinkCheck>): (r: seq<BrokenDetail>)
    ensures |r| <= |checks|
    ensures forall k | 0 <= k < |r| ::
      && 1 <= |r[k].shown| <= ShownPerSource
      && forall i | 0 <= i < |r[k].shown| :: !r[k].shown[i].result.Accessible()
    ensures r == [] <==> forall i | 0 <= i < |checks| :: BrokenOf(checks[i].results) == []
  {
    if checks == [] then []
    else
      var rest := DetailsOf(checks[1..]);
      assert forall i | 1 <= i < |checks| :: checks[1..][i - 1] == checks[i];
      match DetailOf(checks[0])
      case Some(d) => [d] + rest
      case None => rest
  }

  /** The blocks keep the order of the checks. */
  lemma {:induction false} DetailsOfAppend(a: seq<LinkCheck>, b: seq<LinkCheck>)
    ensures DetailsOf(a + b) == DetailsOf(a) + DetailsOf(b)
  {
    if a != [] {
      assert (a + b)[1..] == a[1..] + b;
      DetailsOfAppend(a[1..], b);
    } else {
      assert a + b == b;
    }
  }

  /** The "BROKEN LINKS DETAILS" section: present only when some link is broken. */
  function BrokenDetails(s: Summary, checks: seq<LinkCheck>): (r: seq<BrokenDetail>)
    ensures s.broken <= 0 ==> r == []
    ensures forall k | 0 <= k < |r| ::
      && 1 <= |r[k].shown| <= ShownPerSource
      && forall i | 0 <= i < |r[k].shown| :: !r[k].shown[i].result.Accessible()
  {
    if s.broken > 0 then DetailsOf(checks) else []
  }

  /** With well-formed checks, the details section is non-empty exactly when `broken > 0`. */
  lemma BrokenDetailsIff(live: SourceReport, local: SourceReport, checks: seq<LinkCheck>)
    requires AllWellFormed(checks)
    ensures var s := Summarize(live, local, checks);
      BrokenDetails(s, checks) != [] <==> s.broken > 0
  {
    BrokenSumPositive(checks);
  }
}
