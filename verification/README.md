# Link checkers for a single-page site, modelled in Dafny

This project models two Python scripts. Each one checks the links of one web page.

- `comprehensive_link_checker.py` fetches the live site and reads a local copy. From each source it extracts seven kinds of link with regular expressions and probes up to ten external links per source. It also looks at which JavaScript functions the `onclick` handlers call, and compares the link totals of the two sources. At the end it builds a summary: the success rate, the broken-link details and a quality band.
- `simple_link_test.py` fetches the site once. It feeds the page to an HTML start-tag parser, counts links, buttons and forms, and checks the handlers against a list of fourteen expected functions. It then looks for `localhost`, mixed content and pages over 500 KB, and applies the recommendation thresholds.

Modules, one per concern:

| module | file | what it holds |
|---|---|---|
| `Wrappers`, `Text` | text.dfy | option type, substring search, Python's `\s`, identifier runs, case-insensitive match |
| `Patterns` | patterns.dfy | one attempt of each extraction expression at a position, backtracking resolved |
| `Scanner` | scanner.dfy | `re.finditer`: leftmost, non-overlapping, one step on a failed attempt |
| `LinkExtraction` | extraction.dfy | `extract_links_from_html` and `total_links` |
| `JavaScript` | javascript.dfy | the called/defined/missing function analysis of both scripts |
| `Probing` | probing.dfy | `test_url` and `test_external_links` |
| `Report` | report.dfy | `compare_versions`, the summary statistics, the broken-link details, the quality band |
| `Comprehensive` | pipeline.dfy | `run_comprehensive_test` |
| `HtmlStructure` | link_parser.dfy | `LinkParser` and `analyze_html_structure` |
| `Diagnostics` | diagnostics.dfy | connectivity, resource, size and recommendation rules, `run_all_tests` |

Each regular expression is modelled by what it can match at one position (`Patterns.MatchAt`) and by a generic left-to-right scanner (`Scanner.FindAll`). The scanner is proved to be the only sequence that meets a declarative description of `re.finditer` (`Scanner.IsScan`).

Backtracking is resolved analytically:
- `[^"']+` followed by a quote (or by an image extension or `.css` and then a quote) can only end where the quote-free run ends.
- The greedy `[^>]*` in the `<form`, `<script` and `<link` expressions settles on the last attribute position before the first `>` at which the rest matches (`Patterns.LastWhere`).

The network, the clock, files and the HTML tokeniser are outside the model:
- The result of a request is a `Fetch` value.
- A batch of probes is an oracle `Prober`, which gives what `urlopen` does on the i-th request of a batch for a URL; `test_url` turns that into the recorded outcome.
- Each source arrives as a `SourceReport`: not accessible, or the decoded page text.
- The simple tester's page arrives as a `Connection` carrying the start tags the parser would see.

## Model

| member | source | states |
|---|---|---|
| Patterns.MatchAt | comprehensive_link_checker.py:78-113 | one attempt of an extraction expression at a position. A match starts there and ends inside the text. Its value has the expression's shape. For the attribute expressions, the value is quoted directly after `name=` |
| Patterns.AcceptsShape | comprehensive_link_checker.py:78-113 | on a quote-free run ending at a quote, an expression's value condition holds exactly when the run has that expression's value shape (http(s) scheme, image extension, `.css` suffix, or none) |
| Patterns.TailAtIff | comprehensive_link_checker.py:78-113 | the attribute tail matches at a position exactly when `name=`, a quote, a quote-free value of the expression's shape and a closing quote are there |
| Patterns.PlainMatchIff | comprehensive_link_checker.py:78-103 | an attempt of an expression without a tag anchor succeeds exactly when that quoted shape starts at the position |
| Patterns.AnchoredMatchIff | comprehensive_link_checker.py:96-111 | an attempt of a `<form`, `<script` or `<link` expression succeeds exactly when the tag is there and the quoted shape starts somewhere before the first `>` |
| Patterns.AnchoredMatchGreedy | comprehensive_link_checker.py:96-111 | a successful tag-anchored attempt takes the last position before the first `>` that has the quoted shape |
| Patterns.LastWhere | comprehensive_link_checker.py:96-111 | the greedy `[^>]*`: the result is a position in the window where the rest matches, and no later position in the window matches; None exactly when no position does |
| Patterns.FunctionDefAt | comprehensive_link_checker.py:252-253 | a `function` definition match has `function`, at least one space and an identifier, then spaces and `(`. The value is that identifier |
| Scanner.FindAll | comprehensive_link_checker.py:79-113 | the matches are ordered, do not overlap, start at or after the scan position and lie within the text, and each is a match of the expression |
| Scanner.FindAllIsScan | comprehensive_link_checker.py:79-113 | the scanner's output meets the declarative description of `re.finditer`. No match starts in a gap, and each match is the attempt at its own start |
| Scanner.ScanCharacterization | comprehensive_link_checker.py:79-113 | a match list meets that description exactly when it equals the scanner's output, so the description has exactly one solution |
| Scanner.NothingFoundIff | comprehensive_link_checker.py:79-113 | a scan finds nothing exactly when the attempt fails at every position |
| LinkExtraction.ExternalIsTrimmedMatch | comprehensive_link_checker.py:78-81 | each external link is the matched text without its first six characters (`href=` and the opening quote) and without its closing quote |
| LinkExtraction.InternalLinks | comprehensive_link_checker.py:84-88 | the internal links are the non-http(s) `href` values, kept in order, minus the `mailto:` and `tel:` ones; none is empty |
| LinkExtraction.KeepInternalAppend | comprehensive_link_checker.py:87-88 | the internal filter distributes over concatenation and keeps exactly the values without the two excluded prefixes |
| LinkExtraction.OnclickHandlers | comprehensive_link_checker.py:91-93 | each handler is a non-empty quote-free value quoted after `onclick=` |
| LinkExtraction.FormActions | comprehensive_link_checker.py:96-98 | each form action is a non-empty quote-free value |
| LinkExtraction.ImageSources | comprehensive_link_checker.py:101-103 | each image source ends, ignoring case, with one of the six image extensions |
| LinkExtraction.ScriptSources | comprehensive_link_checker.py:106-108 | each script source is a non-empty quote-free value |
| LinkExtraction.CssLinks | comprehensive_link_checker.py:111-113 | each stylesheet link ends with `.css` |
| LinkExtraction.ExtractLinks | comprehensive_link_checker.py:65-115 | every value of each of the seven lists has its expression's shape: quote-free, with the http(s) scheme, an image extension or the `.css` suffix where the expression demands one |
| LinkExtraction.ExtractLinksIsScan | comprehensive_link_checker.py:65-115 | each list is the values of the unique `re.finditer` match sequence of its expression, and the internal list is that sequence filtered |
| LinkExtraction.ExternalLinks | comprehensive_link_checker.py:78-81 | each external link is quote-free and starts with `http://` or `https://`; its exact content is stated by the `ExternalMatches` and `ExternalIsTrimmedMatch` rows |
| LinkExtraction.ExternalMatches | comprehensive_link_checker.py:78-81 | the external links are the values of a sequence of matches, each quoted directly after `href=` |
| LinkExtraction.NoAttributesNoLinks | comprehensive_link_checker.py:65-115 | a page with no `href=`, `onclick=`, `src=` or `action=` (in any case for `src=`) yields no links, so its `total_links` is 0 |
| JavaScript.LeadingCallIff | comprehensive_link_checker.py:247-249 | the anchored call match of a handler gives a name exactly when the handler starts with that identifier, then spaces, then `(` |
| JavaScript.CalledNames | comprehensive_link_checker.py:245-249 | a name is called exactly when some handler's anchored call match gives it |
| JavaScript.DefinedNames | comprehensive_link_checker.py:252-253 | every defined name is an identifier |
| JavaScript.FunctionDefIff | comprehensive_link_checker.py:252-253 | a definition of a name starts at a position exactly when `function`, at least one space, and a call of that name (identifier, spaces, `(`) are there |
| JavaScript.DefinedIsScan | comprehensive_link_checker.py:252-253 | a name is defined exactly when some match of the unique `re.finditer` sequence of the definition expression has it as its value |
| JavaScript.AnalyzeJavaScript | comprehensive_link_checker.py:236-260 | the handler count is the number of `onclick` values. A name is called exactly when some handler calls it. The defined names are those of the page's `function NAME (` definitions. Missing means called and not defined |
| JavaScript.MissingFacts | comprehensive_link_checker.py:260 | missing names are called names that are not defined; nothing is missing exactly when every called name is defined |
| JavaScript.NotCalledMembers | simple_link_test.py:169-172 | a name is reported exactly when it is in the list and is not called |
| JavaScript.NotCalledAppend | simple_link_test.py:169-172 | the not-called filter distributes over concatenation of name lists |
| JavaScript.NotCalledExtremes | simple_link_test.py:169-172 | with no calls, every name is reported in order; when every name is called, none is |
| JavaScript.MissingExpected | simple_link_test.py:162-172 | the missing expected functions are the expected names not called, in the expected order |
| JavaScript.MissingExpectedEmptyIff | simple_link_test.py:162-175 | nothing is missing exactly when all fourteen expected names are called |
| Probing.TestUrl | comprehensive_link_checker.py:27-63 | accessible exactly when the request answered. The status code and content type are carried through, with "" for a missing type. Each exception kind gets its own status and error text |
| Probing.StatusAccessible | comprehensive_link_checker.py:36-63 | `accessible` is true exactly for status "success" and exactly when there is no error text |
| Probing.ProbeBatch | comprehensive_link_checker.py:202-234 | nothing is recorded for an empty list. Otherwise the first min(n, 10) links are probed in order, each result is `test_url` of that request and is accessible exactly when the request answered, and the record keeps the source and the total |
| Report.CompareVersions | comprehensive_link_checker.py:275-300 | a comparison is recorded exactly when both sources are accessible. It holds both totals, and local plus difference equals live |
| Report.CompareAntisymmetric | comprehensive_link_checker.py:283-299 | swapping the sources negates the difference, which is zero exactly when the totals agree |
| Report.BrokenOf | comprehensive_link_checker.py:390-393 | the broken results are exactly the inaccessible ones; their count plus the working count is the number of results |
| Report.TestedSplits | comprehensive_link_checker.py:307-322 | for well-formed checks, working plus broken equals tested |
| Report.SuccessRate | comprehensive_link_checker.py:323 | the rate is 0 when nothing was tested, otherwise rate times tested equals 100 times working; it lies between 0 and 100 |
| Report.Summarize | comprehensive_link_checker.py:317-324 | the summary records accessibility, the tested and working sums, a non-negative broken count equal to the inaccessible results, and a rate within [0, 100] |
| Report.BandByCounts | comprehensive_link_checker.py:414-421 | the band of the real rate equals the band computed by integer cross-multiplication, and nothing tested counts as very poor |
| Report.DetailOf | comprehensive_link_checker.py:389-398 | a check contributes a block exactly when it has broken results. The block shows its first min(b, 3) broken results, in order |
| Report.DetailsOf | comprehensive_link_checker.py:389-398 | every block shows 1 to 3 inaccessible results; there are no blocks exactly when no check has a broken result |
| Report.DetailsOfAppend | comprehensive_link_checker.py:389-398 | the blocks follow the order of the checks |
| Report.BrokenDetailsIff | comprehensive_link_checker.py:386-399 | for well-formed checks, the details section is non-empty exactly when the broken count is positive |
| Comprehensive.ProbeSources | comprehensive_link_checker.py:439-453 | one well-formed check per source that has external links, the live website before the local file. Each check records the number n of its source's links and the first min(n, 10) links of its source with their `test_url` outcomes, so the tested total is the sum of the two minima |
| Comprehensive.Conclude | comprehensive_link_checker.py:302-421 | at most 20 links are tested and the rate is in [0, 100]. Details appear exactly when something is broken. The band is the band by counts |
| Comprehensive.RunComprehensive | comprehensive_link_checker.py:428-462 | only accessible sources with a non-empty page are probed. Each check records how many external links its source has and the outcomes of the first ten of them. The summary is the summary of those checks, so it tests min(n, 10) links per probed source. The comparison exists exactly when both are accessible. Details appear exactly when something is broken, and the band is the band by counts |
| Comprehensive.TestedAtMostCap | comprehensive_link_checker.py:213 | well-formed checks test at most ten links each |
| HtmlStructure.Lookup | simple_link_test.py:23 | `dict(attrs)` lookup: absent exactly when no attribute has the name, otherwise the value of its last occurrence |
| HtmlStructure.LookupIsDict | simple_link_test.py:23 | the last-wins lookup agrees with the dictionary built by inserting the pairs left to right |
| HtmlStructure.GetOr | simple_link_test.py:48 | the default "GET" is used only when the key is absent; a bare `method` reads as None |
| HtmlStructure.HandleStartTag | simple_link_test.py:22-53 | each list only grows, by at most one element in all. An `a` is recorded exactly when href or onclick is truthy, a `button` exactly when onclick is truthy, and every `form` always. The recorded fields are as given |
| HtmlStructure.HandleIsContribution | simple_link_test.py:22-53 | one start tag extends each of the three lists by exactly what that tag contributes, and nothing else changes |
| HtmlStructure.CollectAppend | simple_link_test.py:22-53 | collecting the contributions distributes over concatenation of tag sequences |
| HtmlStructure.Feed | simple_link_test.py:125-126 | feeding the tags one by one from a fresh parser gives the filters of the whole tag sequence |
| HtmlStructure.EveryFormRecorded | simple_link_test.py:46-53 | no more forms than tags, and one form per tag when every tag is a `form` |
| HtmlStructure.OtherTagsIgnored | simple_link_test.py:25-53 | tags other than `a`, `button` and `form` record nothing |
| HtmlStructure.AnalyzeHtmlStructure | simple_link_test.py:121-140 | the counts are the list lengths, and the interactive elements are the links, then the buttons, then the forms |
| Diagnostics.ConnectivityIssues | simple_link_test.py:102-119 | exactly one issue when the connection fails, none when it succeeds |
| Diagnostics.MissingIssues | simple_link_test.py:169-175 | the missing-functions issue is raised exactly when some expected name is not called, and it lists a non-empty set of names |
| Diagnostics.ResourceIssues | simple_link_test.py:193-197 | the localhost issue appears exactly when `localhost` occurs in the page. The mixed-content issue appears exactly when `http://` occurs and the base URL starts with `https://` |
| Diagnostics.SizeIssues | simple_link_test.py:204-208 | the large-page issue is raised exactly when the page has more than 512000 characters |
| Diagnostics.InlineRecommendations | simple_link_test.py:217-221 | inline-style advice at 6 or more inline styles, inline-script advice at 4 or more inline scripts |
| Diagnostics.GeneralRecommendations | simple_link_test.py:228-239 | the four thresholds are strict: more than 3 s, 100000 characters, 20 links, 15 buttons |
| Diagnostics.RunAllTests | simple_link_test.py:327-349 | the analyses run exactly when a non-empty page was obtained. Otherwise the issues are the connectivity ones and there are no recommendations |
| Diagnostics.ResourceIssueRules | simple_link_test.py:181-197 | on an analysed page, the localhost and mixed-content rules hold and there is no connectivity issue |
| Diagnostics.SizeAndMissingIssueRules | simple_link_test.py:162-208 | on an analysed page, a large-page issue appears exactly past 512000 characters, and a missing-functions issue exactly when an expected name is not called |
| Diagnostics.InlineRecommendationRules | simple_link_test.py:210-221 | on an analysed page, the inline advice follows the strict thresholds 5 and 3 |
| Diagnostics.GeneralRecommendationRules | simple_link_test.py:223-239 | on an analysed page, each general recommendation follows its strict threshold |

## Left out

- `link_test_script.py` is not part of this model.
- Network access, timeouts, request headers and reading `index.html` are not modelled. A request's outcome is a `Fetch`, a batch's outcomes come from a `Prober` oracle, and a source's outcome is a `SourceReport` or a `Connection`.
- Timestamps, `time.sleep`, printing, the JSON file and the text of the readable report are not modelled. The report's content — the details blocks and the band — is modelled.
- HTML tokenisation by `HTMLParser` is not modelled. The parser receives the start tags, with names already lower-cased and entities already decoded.
- The inline `<style>`/`<script>` counts of `analyze_performance_indicators` are inputs. They come from two `re.DOTALL` patterns with lazy bodies, and those patterns are not modelled.
- The external-link and external-script counts of `check_external_resources` are not modelled, because they are only printed.
- Report.SuccessRate: the model computes an exact rational rate, while the program computes a float `working / tested * 100`. With at most twenty links tested, the float rate and the exact rate give the same band at the 50, 75 and 90 boundaries, but float rounding itself is not modelled.
- Diagnostics.SizeIssues: the kilobyte figure is exact rather than a float, and its printed rounding to one decimal place is not modelled.
- JavaScript.AnalyzeJavaScript: the called, defined and missing names are sets. The program turns a set into a list whose order Python does not define, so the model does not fix an order.
- Diagnostics.RunAllTests: `list(function_calls)` is modelled as the set of called names, for the same reason.
- Issues and recommendations are datatype cases, not message strings. Each case carries the values its message interpolates.
- The response time is an input already rounded to two decimal places.
- Comprehensive.Run: the fields `liveScripts` and `localScripts` are added by the model. The program prints the JavaScript analysis of each probed source and then discards it, so it appears in none of its results. The model keeps it only so the analysis has a place in the run, and no summary value depends on it.
