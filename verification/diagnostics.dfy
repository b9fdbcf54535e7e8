/**
 The rule-based part of the simple tester (simple_link_test.py:73-239 and the order of
 `run_all_tests`, 327-357): connectivity, then, when a non-empty page was obtained, the
 structure, the called functions, the resource and size issues and the recommendations.
 Issues and recommendations are cases of datatypes instead of message strings.
 */
module Diagnostics {
  import opened Wrappers
  import opened Text
  import opened JavaScript
  import opened HtmlStructure

  /**
   The outcome of `test_connectivity`. The network, the clock and the tokeniser are not
   modelled: a successful connection brings the status code, the rounded response time,
   the decoded page text and the start tags the HTML parser reports for that text.
   */
  datatype Connection =
    | Connected(statusCode: int, responseTime: real, content: string, tags: seq<StartTag>)
    | HttpFailed(code: int, reason: string)
    | UrlFailed(reason: string)
    | ConnectionFailed(message: string)

  datatype Issue =
    | HttpErrorIssue(code: int, reason: string)
    | UrlErrorIssue(reason: string)
    | ConnectionFailedIssue(message: string)
    | MissingExpectedIssue(names: seq<string>)
    | LocalhostIssue
    | MixedContentIssue
    | LargeHtmlIssue(sizeKb: real)

  datatype Recommendation =
    | MoveInlineStyles
    | MoveInlineScripts
    | SlowResponse
    | LargePage
    | ManyLinks
    | ManyButtons

  /** The issue `test_connectivity` appends; none when it succeeds. */
  function ConnectivityIssues(c: Connection): (r: seq<Issue>)
    ensures r == [] <==> c.Connected?
    ensures |r| <= 1
  {
    match c
    case Connected(_, _, _, _) => []
    case HttpFailed(code, reason) => [HttpErrorIssue(code, reason)]
    case UrlFailed(reason) => [UrlErrorIssue(reason)]
    case ConnectionFailed(message) => [ConnectionFailedIssue(message)]
  }

  /** The issue of `analyze_javascript_functions`: raised only when some expected name is not called. */
  function MissingIssues(calls: set<string>): (r: seq<Issue>)
    ensures r == [] <==> forall i | 0 <= i < |ExpectedFunctions| :: ExpectedFunctions[i] in calls
    ensures forall k | 0 <= k < |r| :: r[k].MissingExpectedIssue? && r[k].names != []
  {
    MissingExpectedEmptyIff(calls);
    var missing := MissingExpected(calls);
    if missing != [] then [MissingExpectedIssue(missing)] else []
  }

  /** `check_external_resources`: the localhost issue, then the mixed-content issue. */
  function ResourceIssues(text: string, baseUrl: string): (r: seq<Issue>)
    ensures LocalhostIssue in r <==> exists j | 0 <= j <= |text| :: HasAt(text, j, "localhost")
    ensures MixedContentIssue in r <==>
      (exists j | 0 <= j <= |text| :: HasAt(text, j, "http://")) && StartsWith(baseUrl, "https://")
    ensures forall k | 0 <= k < |r| :: r[k] == LocalhostIssue || r[k] == MixedContentIssue
  {
    (if Contains(text, "localhost") then [LocalhostIssue] else [])
    + (if Contains(text, "http://") && StartsWith(baseUrl, "https://") then [MixedContentIssue] else [])
  }

  /** The page size in kilobytes, `len(html_content) / 1024`. */
  function SizeKb(text: string): real
  {
    |text| as real / 1024.0
  }

  /** The large-HTML issue of `analyze_performance_indicators`. */
  function SizeIssues(text: string): (r: seq<Issue>)
    ensures r != [] <==> |text| > 512000
    ensures forall k | 0 <= k < |r| :: r[k] == LargeHtmlIssue(SizeKb(text))
  {
    if SizeKb(text) > 500.0 then [LargeHtmlIssue(SizeKb(text))] else []
  }

  /** The recommendations of `analyze_performance_indicators`; the inline counts are inputs. */
  function InlineRecommendations(inlineStyles: nat, inlineScripts: nat): (r: seq<Recommendation>)
    ensures MoveInlineStyles in r <==> inlineStyles >= 6
    ensures MoveInlineScripts in r <==> inlineScripts >= 4
    ensures |r| <= 2
  {
    (if inlineStyles > 5 then [MoveInlineStyles] else [])
    + (if inlineScripts > 3 then [MoveInlineScripts] else [])
  }

  /** `generate_recommendations`; every threshold is strict. */
  function GeneralRecommendations(responseTime: real, contentSize: nat, linksFound: nat, buttonsFound: nat)
    : (r: seq<Recommendation>)
    ensures SlowResponse in r <==> responseTime > 3.0
    ensures LargePage in r <==> contentSize >= 100001
    ensures ManyLinks in r <==> linksFound >= 21
    ensures ManyButtons in r <==> buttonsFound >= 16
    ensures |r| <= 4
  {
    (if responseTime > 3.0 then [SlowResponse] else [])
    + (if contentSize > 100000 then [LargePage] else [])
    + (if linksFound > 20 then [ManyLinks] else [])
    + (if buttonsFound > 15 then [ManyButtons] else [])
  }

  /** The issues of an analysed page, in the order the analyses append them. */
  function AnalysisIssues(calls: set<string>, text: string, baseUrl: string): seq<Issue>
  {
    MissingIssues(calls) + ResourceIssues(text, baseUrl) + SizeIssues(text)
  }

  /** The recommendations of an analysed page, in the order they are appended. */
  function AnalysisRecommendations(
    s: Structure, responseTime: real, text: string, inlineStyles: nat, inlineScripts: nat)
    : seq<Recommendation>
  {
    InlineRecommendations(inlineStyles, inlineScripts)
    + GeneralRecommendations(responseTime, |text|, s.linksFound, s.buttonsFound)
  }

  /** The results of `run_all_tests` that the rules produce. */
  datatype TestRun = TestRun(
    structure: Option<Structure>,
    functionCalls: Option<set<string>>,
    issues: seq<Issue>,
    recommendations: seq<Recommendation>)

  /** The analyses run only when connectivity produced a page, and only when its text is non-empty. */
  predicate Analysed(c: Connection)
  {
    c.Connected? && c.content != []
  }

  function RunAllTests(c: Connection, baseUrl: string, inlineStyles: nat, inlineScripts: nat): (r: TestRun)
    ensures r.structure.Some? <==> Analysed(c)
    ensures r.functionCalls.Some? <==> Analysed(c)
    ensures !Analysed(c) ==> r.issues == ConnectivityIssues(c) && r.recommendations == []
    ensures Analysed(c) ==> r.structure.value == AnalyzeHtmlStructure(c.tags)
    ensures Analysed(c) ==> r.functionCalls.value == AnalyzeJavaScript(c.content).called
    ensures Analysed(c) ==> r.issues == AnalysisIssues(r.functionCalls.value, c.content, baseUrl)
    ensures Analysed(c) ==>
      r.recommendations ==
      AnalysisRecommendations(r.structure.value, c.responseTime, c.content, inlineStyles, inlineScripts)
  {
    if !Analysed(c) then TestRun(None, None, ConnectivityIssues(c), [])
    else
      var s := AnalyzeHtmlStructure(c.tags);
      var calls := FunctionCalls(c.content);
      var issues := AnalysisIssues(calls, c.content, baseUrl);
      var recs := AnalysisRecommendations(s, c.responseTime, c.content, inlineStyles, inlineScripts);
      TestRun(Some(s), Some(calls), issues, recs)
  }

  /** An issue of an analysed page comes from one of the three analyses. */
  lemma IssueSources(calls: set<string>, text: string, baseUrl: string)
    ensures forall x :: x in AnalysisIssues(calls, text, baseUrl) <==>
      x in MissingIssues(calls) || x in ResourceIssues(text, baseUrl) || x in SizeIssues(text)
  {
  }

  /** The substring rules of an analysed page. */
  lemma ResourceIssueRules(calls: set<string>, text: string, baseUrl: string)
    ensures LocalhostIssue in AnalysisIssues(calls, text, baseUrl) <==> Contains(text, "localhost")
    ensures MixedContentIssue in AnalysisIssues(calls, text, baseUrl) <==>
      Contains(text, "http://") && StartsWith(baseUrl, "https://")
    ensures forall x | x in AnalysisIssues(calls, text, baseUrl) ::
      !x.HttpErrorIssue? && !x.UrlErrorIssue? && !x.ConnectionFailedIssue?
  {
    IssueSources(calls, text, baseUrl);
  }

  /** The size and missing-function rules of an analysed page. */
  lemma SizeAndMissingIssueRules(calls: set<string>, text: string, baseUrl: string)
    ensures (exists x | x in AnalysisIssues(calls, text, baseUrl) :: x.LargeHtmlIssue?) <==> |text| > 512000
    ensures (exists x | x in AnalysisIssues(calls, text, baseUrl) :: x.MissingExpectedIssue?) <==>
      exists i | 0 <= i < |ExpectedFunctions| :: ExpectedFunctions[i] !in calls
  {
    IssueSources(calls, text, baseUrl);
    var a := MissingIssues(calls);
    var d := SizeIssues(text);
    if |text| > 512000 {
      assert d[0] in d;
    }
    if exists i | 0 <= i < |ExpectedFunctions| :: ExpectedFunctions[i] !in calls {
      assert a[0] in a;
    }
  }

  /** A recommendation of an analysed page comes from the performance or the general rules. */
  lemma RecommendationSources(s: Structure, responseTime: real, text: string, inlineStyles: nat, inlineScripts: nat)
    ensures forall x :: x in AnalysisRecommendations(s, responseTime, text, inlineStyles, inlineScripts) <==>
      x in InlineRecommendations(inlineStyles, inlineScripts)
      || x in GeneralRecommendations(responseTime, |text|, s.linksFound, s.buttonsFound)
  {
  }

  /** The inline-content rules of an analysed page; the thresholds are strict. */
  lemma InlineRecommendationRules(s: Structure, responseTime: real, text: string, inlineStyles: nat, inlineScripts: nat)
    ensures MoveInlineStyles in AnalysisRecommendations(s, responseTime, text, inlineStyles, inlineScripts)
      <==> inlineStyles > 5
    ensures MoveInlineScripts in AnalysisRecommendations(s, responseTime, text, inlineStyles, inlineScripts)
      <==> inlineScripts > 3
  {
    RecommendationSources(s, responseTime, text, inlineStyles, inlineScripts);
  }

  /** The rules of `generate_recommendations` on an analysed page; the thresholds are strict. */
  lemma GeneralRecommendationRules(s: Structure, responseTime: real, text: string, inlineStyles: nat, inlineScripts: nat)
    ensures SlowResponse in AnalysisRecommendations(s, responseTime, text, inlineStyles, inlineScripts)
      <==> responseTime > 3.0
    ensures LargePage in AnalysisRecommendations(s, responseTime, text, inlineStyles, inlineScripts)
      <==> |text| > 100000
    ensures ManyLinks in AnalysisRecommendations(s, responseTime, text, inlineStyles, inlineScripts)
      <==> s.linksFound > 20
    ensures ManyButtons in AnalysisRecommendations(s, responseTime, text, inlineStyles, inlineScripts)
      <==> s.buttonsFound > 15
  {
    RecommendationSources(s, responseTime, text, inlineStyles, inlineScripts);
  }
}
